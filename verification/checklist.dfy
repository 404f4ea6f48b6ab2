/**
 * The checklist panel of the card detail: its progress percentage and the
 * form that adds an item only when the typed text is not blank.
 */
module ChecklistPanel {
  import opened Collections
  import opened Types
  import opened CardView

  /**
   * `calculateProgress`: 0 for an empty checklist, otherwise the share of
   * checked items in percent, rounded to the nearest integer with halves
   * going up (integer round-half-up in place of `Math.round` on a float).
   */
  function Progress(items: seq<ChecklistItem>): (p: nat)
    ensures items == [] ==> p == 0
  {
    if items == [] then 0 else RoundHalfUp(100 * |Checked(items)|, |items|)
  }

  /** `num / den` rounded to the nearest integer, halves going up. */
  function RoundHalfUp(num: nat, den: nat): (r: nat)
    requires den > 0
    ensures 2 * den * r <= 2 * num + den < 2 * den * (r + 1)
  {
    var x: nat, y: nat := 2 * num + den, 2 * den;
    DivBounds(x, y);
    x / y
  }

  /** Euclidean division brackets its dividend. */
  lemma DivBounds(x: nat, y: nat)
    requires y > 0
    ensures 0 <= x / y && y * (x / y) <= x < y * (x / y + 1)
  {
  }

  /**
   * The percentage is the share of checked items in percent rounded to the
   * nearest integer, halves going up: `p - 1/2 <= 100 * checked / total < p + 1/2`.
   */
  lemma ProgressRounds(items: seq<ChecklistItem>)
    requires items != []
    ensures var n, p := |items|, Progress(items);
      2 * n * p <= 200 * |Checked(items)| + n < 2 * n * (p + 1)
  {
    DivBounds(200 * |Checked(items)| + |items|, 2 * |items|);
  }

  lemma MulMonotone(k: nat, a: nat, b: nat)
    requires a <= b
    ensures k * a <= k * b
  {
  }

  /** The quotient is the one number that brackets the dividend. */
  lemma DivUnique(x: nat, y: nat, q: nat)
    requires y > 0 && y * q <= x < y * (q + 1)
    ensures x / y == q
  {
    DivBounds(x, y);
    var d := x / y;
    if d < q {
      MulMonotone(y, d + 1, q);
    } else if d > q {
      MulMonotone(y, q + 1, d);
    }
  }

  /** The percentage never exceeds 100. */
  lemma ProgressAtMost100(items: seq<ChecklistItem>)
    ensures Progress(items) <= 100
  {
    if items != [] {
      var n, c := |items|, |Checked(items)|;
      var x, y := 2 * (100 * c) + n, 2 * n;
      DivBounds(x, y);
      if x / y > 100 {
        MulMonotone(y, 101, x / y);
      }
    }
  }

  /** A checklist with every item checked shows 100. */
  lemma ProgressAllChecked(items: seq<ChecklistItem>)
    requires items != [] && forall i :: 0 <= i < |items| ==> items[i].checked
    ensures Progress(items) == 100
  {
    var n := |items|;
    DivUnique(2 * (100 * n) + n, 2 * n, 100);
  }

  /** A checklist with no item checked shows 0. */
  lemma ProgressNoneChecked(items: seq<ChecklistItem>)
    requires forall i :: 0 <= i < |items| ==> !items[i].checked
    ensures Progress(items) == 0
  {
    if items != [] {
      DivUnique(|items|, 2 * |items|, 0);
    }
  }

  /** The characters `String.prototype.trim` removes: white space and line terminators. */
  predicate IsTrimmed(c: char)
    ensures IsTrimmed(c) ==> !('0' <= c <= '9' || 'a' <= c <= 'z' || 'A' <= c <= 'Z')
    ensures c as int < 0x80 ==> (IsTrimmed(c) <==> c == ' ' || c == '\t' || c == '\n' || c == '\r' || c as int == 0x0B || c as int == 0x0C)
  {
    var k := c as int;
    (0x09 <= k <= 0x0D) || k == 0x20 || k == 0xA0 || k == 0x1680 || (0x2000 <= k <= 0x200A) ||
    k == 0x2028 || k == 0x2029 || k == 0x202F || k == 0x205F || k == 0x3000 || k == 0xFEFF
  }

  function TrimStart(s: string): (r: string)
    ensures |r| <= |s| && r == s[|s| - |r|..]
    ensures r == [] || !IsTrimmed(r[0])
    ensures forall i :: 0 <= i < |s| - |r| ==> IsTrimmed(s[i])
  {
    if s != [] && IsTrimmed(s[0]) then TrimStart(s[1..]) else s
  }

  function TrimEnd(s: string): (r: string)
    ensures |r| <= |s| && r == s[..|r|]
    ensures r == [] || !IsTrimmed(r[|r| - 1])
    ensures forall i :: |r| <= i < |s| ==> IsTrimmed(s[i])
  {
    if s != [] && IsTrimmed(s[|s| - 1]) then TrimEnd(s[..|s| - 1]) else s
  }

  /** `r` sits at index `a` of `s` with only white space before and after it. */
  predicate PaddedAt(s: string, a: int, r: string) {
    0 <= a <= |s| - |r| && r == s[a..a + |r|] &&
    (forall i :: 0 <= i < a ==> IsTrimmed(s[i])) &&
    (forall i :: a + |r| <= i < |s| ==> IsTrimmed(s[i]))
  }

  /** `s.trim()`: the text without leading and trailing white space. */
  function Trim(s: string): (r: string)
    ensures |r| <= |s|
    ensures r == [] || (!IsTrimmed(r[0]) && !IsTrimmed(r[|r| - 1]))
  {
    TrimEnd(TrimStart(s))
  }

  /** The trimmed text is a part of `s` with only white space around it. */
  lemma TrimPadded(s: string)
    ensures exists a :: PaddedAt(s, a, Trim(s))
  {
    var t, r := TrimStart(s), Trim(s);
    var a := |s| - |t|;
    assert r == s[a..a + |r|];
    forall i | a + |r| <= i < |s| ensures IsTrimmed(s[i]) {
      assert s[i] == t[i - a];
    }
    assert PaddedAt(s, a, r);
  }

  /** The trimmed text is empty exactly when every character is white space. */
  lemma TrimEmpty(s: string)
    ensures Trim(s) == [] <==> forall i :: 0 <= i < |s| ==> IsTrimmed(s[i])
  {
    var t := TrimStart(s);
    if Trim(s) != [] {
      assert t != [] && !IsTrimmed(t[0]);
      assert s[|s| - |t|] == t[0];
    }
  }

  /** The add-item form of one checklist. */
  class ItemForm {
    var newItemText: string

    constructor()
      ensures newItemText == ""
    {
      newItemText := "";
    }

    /** The input's change handler. */
    method Type(text: string)
      modifies this
      ensures newItemText == text
    {
      newItemText := text;
    }

    /**
     * `handleSubmit`: with non-blank text, the text as typed (untrimmed) is
     * handed to `onAddItem` and the input is cleared; blank text changes
     * nothing.
     */
    method Submit() returns (added: Option<string>)
      modifies this
      ensures Trim(old(newItemText)) != "" ==> added == Some(old(newItemText)) && newItemText == ""
      ensures Trim(old(newItemText)) == "" ==> added.None? && newItemText == old(newItemText)
    {
      if Trim(newItemText) != "" {
        added := Some(newItemText);
        newItemText := "";
      } else {
        added := None;
      }
    }
  }
}
