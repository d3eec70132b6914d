/**
 The display shortens long urls so that each row stays tidy: a url longer
 than 26 characters is cut to its first 23 characters followed by "...".
 Strings are sequences of characters; the UTF-16 code units that the
 browser actually counts are not modelled.
 */
module Truncation {

  /** The longest url text a row ever shows. */
  const MaxShown: nat := 26

  /** How many characters of a long url are kept before the ellipsis. */
  const Kept: nat := 23

  const Ellipsis: string := "..."

  /** The text shown for `url` in a traffic-light row. */
  function Truncate(url: string): (r: string)
    ensures |r| <= MaxShown
    ensures |url| <= MaxShown ==> r == url
    ensures |url| > MaxShown ==> |r| == MaxShown
    ensures |url| > MaxShown ==> r[..Kept] == url[..Kept] && r[Kept..] == Ellipsis
  {
    if |url| > MaxShown then url[..Kept] + Ellipsis else url
  }

  /** A url is shown verbatim exactly when it fits. */
  lemma TruncateKeepsExactlyShortUrls(url: string)
    ensures Truncate(url) == url <==> |url| <= MaxShown
  {
    if |url| > MaxShown {
      assert |Truncate(url)| != |url|;
    }
  }

  /** Shortening an already shown text changes nothing. */
  lemma TruncateIdempotent(url: string)
    ensures Truncate(Truncate(url)) == Truncate(url)
  {
  }

  /** Two long urls that agree on their first 23 characters look the same. */
  lemma TruncateForgetsTail(u: string, v: string)
    requires |u| > MaxShown && |v| > MaxShown
    ensures Truncate(u) == Truncate(v) <==> u[..Kept] == v[..Kept]
  {
    if Truncate(u) == Truncate(v) {
      assert u[..Kept] == Truncate(u)[..Kept];
    }
  }
}
