/** Python's `str.replace`. */
module Text {

  /** Leftmost, non-overlapping occurrences of a non-empty pattern. */
  function Replace(s: string, pat: string, rep: string): string
    requires pat != ""
  {
    if |s| < |pat| then s
    else if pat <= s then rep + Replace(s[|pat|..], pat, rep)
    else [s[0]] + Replace(s[1..], pat, rep)
  }
}
