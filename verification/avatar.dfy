/**
 * The initials shown in the user avatar: the first character of every
 * space-separated word of the name, upper-cased, at most two of them.
 */
module Avatar {

  /** No piece holds a space. */
  predicate SpaceFree(pieces: seq<string>) {
    forall i, k :: 0 <= i < |pieces| && 0 <= k < |pieces[i]| ==> pieces[i][k] != ' '
  }

  /** `pieces.join(' ')`. */
  function Join(pieces: seq<string>): string {
    if pieces == [] then ""
    else if |pieces| == 1 then pieces[0]
    else pieces[0] + " " + Join(pieces[1..])
  }

  /** `s.split(' ')`: the pieces between single spaces, empty ones included. */
  function Split(s: string): (r: seq<string>)
    ensures |r| >= 1
    ensures SpaceFree(r)
    ensures Join(r) == s
  {
    if s == [] then [""]
    else
      var rest := Split(s[1..]);
      if s[0] == ' ' then
        assert Join([""] + rest) == "" + " " + Join(rest) by {
          assert ([""] + rest)[1..] == rest;
        }
        [""] + rest
      else
        var r := [[s[0]] + rest[0]] + rest[1..];
        assert Join(r) == [s[0]] + Join(rest) by {
          assert r[1..] == rest[1..];
        }
        assert SpaceFree(r) by {
          forall i, k | 0 <= i < |r| && 0 <= k < |r[i]| ensures r[i][k] != ' ' {
            if i > 0 {
              assert r[i] == rest[i];
            } else if k > 0 {
              assert r[0][k] == rest[0][k - 1];
            }
          }
        }
        assert s == [s[0]] + s[1..];
        r
  }

  /** Splitting a space-free word followed by more text. */
  lemma {:induction false} SplitWord(a: string, t: string)
    requires forall k :: 0 <= k < |a| ==> a[k] != ' '
    ensures Split(a + t) == [a + Split(t)[0]] + Split(t)[1..]
  {
    if a != [] {
      var u := Split(t);
      assert (a + t)[0] == a[0] && (a + t)[1..] == a[1..] + t;
      var rest := Split(a[1..] + t);
      SplitWord(a[1..], t);
      assert rest == [a[1..] + u[0]] + u[1..];
      assert [a[0]] + (a[1..] + u[0]) == a + u[0];
      assert Split(a + t) == [[a[0]] + rest[0]] + rest[1..];
      assert rest[1..] == u[1..];
    } else {
      assert a + t == t && a + Split(t)[0] == Split(t)[0];
      assert Split(t) == [Split(t)[0]] + Split(t)[1..];
    }
  }

  /** `split` undoes `join` on pieces without spaces. */
  lemma {:induction false} SplitJoin(pieces: seq<string>)
    requires |pieces| >= 1 && SpaceFree(pieces)
    ensures Split(Join(pieces)) == pieces
  {
    var a := pieces[0];
    assert forall k :: 0 <= k < |a| ==> a[k] != ' ' by {
      forall k | 0 <= k < |a| ensures a[k] != ' ' {
        assert pieces[0][k] != ' ';
      }
    }
    if |pieces| == 1 {
      SplitWord(a, "");
      assert a + "" == a;
    } else {
      var rest := pieces[1..];
      assert SpaceFree(rest) by {
        forall i, k | 0 <= i < |rest| && 0 <= k < |rest[i]| ensures rest[i][k] != ' ' {
          assert rest[i] == pieces[i + 1];
        }
      }
      var tail := " " + Join(rest);
      assert Split(tail) == [""] + rest by {
        assert tail[0] == ' ' && tail[1..] == Join(rest);
        SplitJoin(rest);
      }
      assert Split(a + tail) == [a] + rest by {
        SplitWord(a, tail);
        assert ([""] + rest)[1..] == rest && a + "" == a;
      }
      assert Join(pieces) == a + tail;
      assert pieces == [a] + rest;
    }
  }

  /** The first character of every piece, concatenated; an empty piece gives nothing. */
  function Heads(words: seq<string>): string {
    if words == [] then ""
    else (if words[0] == "" then "" else [words[0][0]]) + Heads(words[1..])
  }

  /**
   * The characters of `s` that begin a word: not a space, and first in `s`
   * (when `atStart`) or right after a space.
   */
  function WordStarts(s: string, atStart: bool): string {
    if s == [] then ""
    else (if atStart && s[0] != ' ' then [s[0]] else "") + WordStarts(s[1..], s[0] == ' ')
  }

  function UpperChar(c: char): char {
    if 'a' <= c <= 'z' then (c as int - 32) as char else c
  }

  /** `toUpperCase` on ASCII letters; every other character is kept. */
  function Upper(s: string): (r: string)
    ensures |r| == |s|
    ensures forall i :: 0 <= i < |s| ==> r[i] == UpperChar(s[i])
  {
    seq(|s|, i requires 0 <= i < |s| => UpperChar(s[i]))
  }

  /** `getInitials`: "U" for an empty name, else the upper-cased word starts cut to two characters. */
  function Initials(name: string): (r: string)
    ensures name == "" ==> r == "U"
    ensures |r| <= 2
  {
    if name == "" then "U"
    else
      var all := Upper(Heads(Split(name)));
      if |all| <= 2 then all else all[..2]
  }

  /**
   * The heads of the pieces are exactly the word starts; the heads of all
   * pieces but the first are the word starts after the first character.
   */
  lemma {:induction false} HeadsAreWordStarts(s: string)
    ensures Heads(Split(s)) == WordStarts(s, true)
    ensures Heads(Split(s)[1..]) == WordStarts(s, false)
  {
    if s != [] {
      var rest := Split(s[1..]);
      HeadsAreWordStarts(s[1..]);
      if s[0] == ' ' {
        assert Split(s) == [""] + rest;
        assert (([""] + rest)[1..]) == rest;
      } else {
        var r := [[s[0]] + rest[0]] + rest[1..];
        assert Split(s) == r;
        assert r[1..] == rest[1..];
      }
    }
  }

  /** The initials are the upper-cased characters that begin a word, at most two of them. */
  lemma InitialsOfWords(name: string)
    requires name != ""
    ensures var starts := Upper(WordStarts(name, true));
      Initials(name) == if |starts| <= 2 then starts else starts[..2]
  {
    HeadsAreWordStarts(name);
  }

  /** A name of spaces only has no word, so its initials are empty, not "U". */
  lemma {:induction false} OnlySpaces(name: string)
    requires name != "" && forall i :: 0 <= i < |name| ==> name[i] == ' '
    ensures Initials(name) == ""
  {
    HeadsAreWordStarts(name);
    NoWordStarts(name, true);
  }

  lemma {:induction false} NoWordStarts(s: string, atStart: bool)
    requires forall i :: 0 <= i < |s| ==> s[i] == ' '
    ensures WordStarts(s, atStart) == ""
  {
    if s != [] {
      NoWordStarts(s[1..], true);
    }
  }

  /** The default name "User" shows "U". */
  lemma DefaultName()
    ensures Initials("User") == "U"
  {
    InitialsOfWords("User");
    assert "User"[1..] == "ser" && "ser"[1..] == "er" && "er"[1..] == "r" && "r"[1..] == "";
    assert WordStarts("User", true) == "U";
  }
}
