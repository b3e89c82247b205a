/**
  What the code-block footer derives from a segment's optional `language`:
  the download file name, the CSS class of the highlighted block, and the
  label shown in the footer.
 */
module CodeBlock {
  import opened Common
  import opened Segments

  /** Every downloaded file name starts with this. */
  const FilePrefix: string := "bedrock_code."

  /** `bedrock_code.${language || 'txt'}`. */
  function Filename(language: Option<string>): (r: string)
    ensures |r| > |FilePrefix| && r[..|FilePrefix|] == FilePrefix
  {
    FilePrefix + OrElse(language, "txt")
  }

  /** The extension of a downloaded file: everything after the prefix. */
  function Extension(filename: string): string
    requires |filename| >= |FilePrefix|
  {
    filename[|FilePrefix|..]
  }

  /**
    The extension is the language when one is given and "txt" otherwise, and
    two languages give the same file name exactly when they give the same
    extension.
   */
  lemma FilenameExtension(a: Option<string>, b: Option<string>)
    ensures Extension(Filename(a)) == (if Truthy(a) then a.value else "txt")
    ensures Filename(a) == Filename(b) <==> OrElse(a, "txt") == OrElse(b, "txt")
  {
    var fa := Filename(a);
    assert fa[|FilePrefix|..] == OrElse(a, "txt");
    if Filename(a) == Filename(b) {
      assert Filename(b)[|FilePrefix|..] == OrElse(b, "txt");
    }
  }

  /**
    The extension is "txt" when no language is given, and also when the
    language is literally "txt": the two cannot be told apart from the name.
   */
  lemma TxtExtensionIff(language: Option<string>)
    ensures Extension(Filename(language)) == "txt" <==> !Truthy(language) || language.value == "txt"
  {
    FilenameExtension(language, language);
  }

  /** The language "txt" and no language download under the same name. */
  lemma TxtLanguageIndistinguishable()
    ensures Filename(Some("txt")) == Filename(None)
    ensures Truthy(Some("txt")) && !Truthy(None)
  {
  }

  /** `language ? `language-${language.toLowerCase()}` : 'language-text'`. */
  function LangClass(language: Option<string>): (r: string)
    ensures |r| > 9 && r[..9] == "language-"
    ensures forall k :: 9 <= k < |r| ==> !('A' <= r[k] <= 'Z')
    ensures !Truthy(language) ==> r == "language-text"
    ensures Truthy(language) ==> r == "language-" + Lower(language.value)
  {
    "language-" + (if Truthy(language) then Lower(language.value) else "text")
  }

  /**
    The class ignores the case of the language: two given languages get the
    same class exactly when they agree after lower-casing, and lower-casing
    the language first changes nothing.
   */
  lemma LangClassIgnoresCase(x: string, y: string)
    requires x != "" && y != ""
    ensures LangClass(Some(x)) == LangClass(Some(y)) <==> Lower(x) == Lower(y)
    ensures LangClass(Some(Lower(x))) == LangClass(Some(x))
  {
    if LangClass(Some(x)) == LangClass(Some(y)) {
      assert LangClass(Some(x))[9..] == Lower(x);
      assert LangClass(Some(y))[9..] == Lower(y);
    }
    LowerIdempotent(x);
  }

  /** The footer label: `language || 'TEXT'`, never empty. */
  function Label(language: Option<string>): (r: string)
    ensures r != ""
    ensures Truthy(language) ==> r == language.value
  {
    OrElse(language, "TEXT")
  }

  /**
    For a code segment the parser produced from a match with tag `t`, the
    footer shows the tag (or "TEXT" for an empty tag), the file name ends in
    the tag (or "txt"), and, because a tag holds no '.', the extension is
    everything after the only '.' of the file name.
   */
  lemma CodeBlockOfMatch(s: string, seg: Segment, m: Match)
    requires Fits(s, m) && RendersMatch(s, seg, m) && IsTag(Lang(s, m))
    ensures var t := Lang(s, m);
      && Label(seg.lang) == (if t == "" then "TEXT" else t)
      && Filename(seg.lang) == FilePrefix + (if t == "" then "txt" else t)
    ensures forall k :: 0 <= k < |Filename(seg.lang)| && Filename(seg.lang)[k] == '.' <==> k == |FilePrefix| - 1
  {
    var t := Lang(s, m);
    var f := Filename(seg.lang);
    var ext := if t == "" then "txt" else t;
    assert f == FilePrefix + ext;
    forall k | |FilePrefix| <= k < |f| ensures f[k] != '.' {
      assert f[k] == ext[k - |FilePrefix|];
    }
  }
}
