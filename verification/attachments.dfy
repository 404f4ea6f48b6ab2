/**
 * The attachment list of the card detail: which icon each attachment gets
 * from its url and type, and when the list is not drawn at all.
 */
module AttachmentIcons {
  import opened Collections
  import opened Types

  datatype FileIcon = ImageIcon | PdfIcon | TextIcon | GenericFileIcon | PaperclipIcon | LinkIcon

  predicate StartsWith(s: string, prefix: string) {
    |prefix| <= |s| && s[..|prefix|] == prefix
  }

  /**
   * `getFileIcon`: uploaded files (data urls) are told apart by their media
   * type, whatever the attachment's type says; other urls by the type alone.
   */
  function IconOf(url: string, kind: string): (r: FileIcon)
    ensures r == ImageIcon <==> StartsWith(url, "data:image/")
    ensures r == PdfIcon <==> StartsWith(url, "data:application/pdf")
    ensures r == TextIcon <==> StartsWith(url, "data:text/")
    ensures r == GenericFileIcon <==>
      StartsWith(url, "data:") && !StartsWith(url, "data:image/") &&
      !StartsWith(url, "data:application/pdf") && !StartsWith(url, "data:text/")
    ensures r == PaperclipIcon <==> !StartsWith(url, "data:") && kind == "file"
    ensures r == LinkIcon <==> !StartsWith(url, "data:") && kind != "file"
  {
    MediaPrefixes(url);
    if StartsWith(url, "data:") then
      if StartsWith(url, "data:image/") then ImageIcon
      else if StartsWith(url, "data:application/pdf") then PdfIcon
      else if StartsWith(url, "data:text/") then TextIcon
      else GenericFileIcon
    else if kind == "file" then PaperclipIcon
    else LinkIcon
  }

  /** A longer prefix implies the shorter one it starts with. */
  lemma PrefixOfPrefix(s: string, p: string, q: string)
    requires StartsWith(s, p) && StartsWith(p, q)
    ensures StartsWith(s, q)
  {
    assert s[..|q|] == s[..|p|][..|q|];
  }

  /** The three media-type prefixes are data-url prefixes, and no url has two of them. */
  lemma MediaPrefixes(url: string)
    ensures StartsWith(url, "data:image/") ==> StartsWith(url, "data:")
    ensures StartsWith(url, "data:application/pdf") ==> StartsWith(url, "data:")
    ensures StartsWith(url, "data:text/") ==> StartsWith(url, "data:")
    ensures !(StartsWith(url, "data:image/") && StartsWith(url, "data:text/"))
    ensures !(StartsWith(url, "data:image/") && StartsWith(url, "data:application/pdf"))
    ensures !(StartsWith(url, "data:application/pdf") && StartsWith(url, "data:text/"))
  {
    if StartsWith(url, "data:image/") {
      PrefixOfPrefix(url, "data:image/", "data:");
      assert url[5] == 'i';
    }
    if StartsWith(url, "data:application/pdf") {
      PrefixOfPrefix(url, "data:application/pdf", "data:");
      assert url[5] == 'a';
    }
    if StartsWith(url, "data:text/") {
      PrefixOfPrefix(url, "data:text/", "data:");
      assert url[5] == 't';
    }
  }

  /** For an uploaded file the attachment's type does not matter. */
  lemma DataUrlIgnoresKind(url: string, kind1: string, kind2: string)
    requires StartsWith(url, "data:")
    ensures IconOf(url, kind1) == IconOf(url, kind2)
  {
  }

  /** The icons drawn for the attachments, or nothing when there is no attachment. */
  function RenderAttachments(attachments: Option<seq<Attachment>>): (r: Option<seq<FileIcon>>)
    ensures r.None? <==> attachments.None? || attachments.value == []
    ensures r.Some? ==> |r.value| == |attachments.value|
    ensures r.Some? ==>
      forall i :: 0 <= i < |r.value| ==> r.value[i] == IconOf(attachments.value[i].url, attachments.value[i].kind)
  {
    match attachments
    case None => None
    case Some(list) =>
      if list == [] then None
      else Some(seq(|list|, i requires 0 <= i < |list| => IconOf(list[i].url, list[i].kind)))
  }
}
