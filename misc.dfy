/** `escapeHtml` and `unescapeHtml` of src/misc.ts: the shared escaper with
    the hexadecimal apostrophe entity `&#x27;`. Their contracts are the
    promises the rest of the renderer relies on. */
module Misc {
  import opened Strings
  import Html

  /** `escapeHtml`: none of `<`, `>`, `"`, `'` is left, every special
      character grows by its entity, and text without specials is unchanged. */
  function EscapeHtml(text: string): (r: string)
    ensures '<' !in r && '>' !in r && '"' !in r && '\'' !in r
    ensures |r| == |text| + 4 * Count(text, '&') + 3 * Count(text, '<') + 3 * Count(text, '>')
                          + 5 * Count(text, '"') + 5 * Count(text, '\'')
    ensures (forall i :: 0 <= i < |text| ==> !Html.IsSpecial(text[i])) ==> r == text
  {
    Html.EscapeRemovesSpecials(text, Html.AposHex);
    Html.EscapeLength(text, Html.AposHex);
    Html.EscapeIdentityIf(text, Html.AposHex);
    Html.Escape(text, Html.AposHex)
  }

  /** `unescapeHtml`: text without `&` is unchanged. */
  function UnescapeHtml(html: string): (r: string)
    ensures '&' !in html ==> r == html
  {
    if '&' !in html then
      Html.UnescapeIdentity(html, Html.AposHex);
      Html.Unescape(html, Html.AposHex)
    else Html.Unescape(html, Html.AposHex)
  }

  /** Unescaping undoes escaping for every text that spells neither
      `&quot;` nor `&#x27;`. */
  lemma RoundTrip(x: string)
    requires !Occurs("&quot;", x) && !Occurs("&#x27;", x)
    ensures UnescapeHtml(EscapeHtml(x)) == x
  {
    Html.RoundTrip(x, Html.AposHex);
  }

  /** ... and fails on each of them. */
  lemma RoundTripFails()
    ensures UnescapeHtml(EscapeHtml("&quot;")) == "\""
    ensures UnescapeHtml(EscapeHtml("&#x27;")) == "'"
  {
    Html.RoundTripFailsOnQuot(Html.AposHex);
    Html.RoundTripFailsOnApos(Html.AposHex);
  }
}
