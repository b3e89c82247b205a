/**
  The header's title: the page title, or the application name when there is
  none; on mobile it is cut down to at most 30 characters.
 */
module Header {
  import opened Common

  /** The application name, shown when no page title is set. */
  const AppName: string := "Bedrock a\U{ED}"

  /** The longest title shown in full. */
  const MaxTitle: nat := 30

  /** `pageTitle || "Bedrock aí"`: a null, absent or empty title falls back to the application name. */
  function DisplayTitle(pageTitle: Option<string>): (r: string)
    ensures r != ""
    ensures Truthy(pageTitle) ==> r == pageTitle.value
    ensures !Truthy(pageTitle) ==> r == AppName
  {
    OrElse(pageTitle, AppName)
  }

  /**
    A title longer than 30 characters becomes its first 27 characters
    followed by "...", exactly 30 characters; a shorter one is kept.
   */
  function Truncate(title: string): (r: string)
    ensures |r| <= MaxTitle
    ensures |title| <= MaxTitle ==> r == title
    ensures |title| > MaxTitle ==> |r| == MaxTitle && r[..27] == title[..27] && r[27..] == "..."
  {
    if |title| > MaxTitle then title[..27] + "..." else title
  }

  /**
    Whatever the length, the first `min(27, |title|)` characters survive, and
    truncating an already truncated title changes nothing.
   */
  lemma TruncateKeepsPrefix(title: string)
    ensures var n := if |title| < 27 then |title| else 27;
      |Truncate(title)| >= n && Truncate(title)[..n] == title[..n]
    ensures Truncate(Truncate(title)) == Truncate(title)
  {
  }

  /** The title the mobile header shows for a page title; the desktop header shows `DisplayTitle` in full. */
  function HeaderText(pageTitle: Option<string>): (r: string)
    ensures 0 < |r| <= MaxTitle
  {
    Truncate(DisplayTitle(pageTitle))
  }
}
