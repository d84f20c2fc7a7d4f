/**
 * The three steps shared by both versions of `normalizeUrl`: keep element
 * `[1]` of the split on a scheme separator, collapse runs of '/', and put a
 * scheme chosen by the security flag back in front.
 */
module UrlNormalize {
  import opened Wrappers
  import opened JsSplit
  import opened SlashRuns

  const HttpsScheme: string := "https://"
  const HttpScheme: string := "http://"

  /** The scheme text the flag selects. */
  function Scheme(secure: bool): string {
    if secure then HttpsScheme else HttpScheme
  }

  predicate HasPrefix(s: string, p: string) {
    |p| <= |s| && s[..|p|] == p
  }

  /**
   * The shape every normalized URL has: the scheme the flag selects, then a
   * remainder with no two adjacent '/'.
   */
  predicate IsNormalized(u: string, secure: bool) {
    HasPrefix(u, Scheme(secure)) && NoDoubleSlash(u[|Scheme(secure)|..])
  }

  /**
   * `normalizeUrl` with the split separator `sep` as a parameter. `None`
   * stands for the TypeError thrown when `split(sep)[1]` is undefined.
   */
  function Normalize(url: string, sep: string, secure: bool): (r: Option<string>)
    requires |sep| > 0
    ensures r.Some? <==> Contains(url, sep)
    ensures r.Some? ==> IsNormalized(r.value, secure)
    ensures r.Some? ==>
      StripSlashes(r.value[|Scheme(secure)|..]) == StripSlashes(SplitSecond(url, sep).value)
  {
    match SplitSecond(url, sep)
    case None => None
    case Some(rest) =>
      var u := Scheme(secure) + ReplaceSlashRuns(rest);
      assert u[|Scheme(secure)|..] == ReplaceSlashRuns(rest);
      Some(u)
  }

  /**
   * Both schemes end in "//", so a string with no two adjacent '/' cannot
   * contain either of them.
   */
  lemma SchemeAbsentWithoutDoubleSlash(c: string, secure: bool)
    ensures NoDoubleSlash(c) ==> !Contains(c, Scheme(secure))
  {
    var sch := Scheme(secure);
    var n := |sch|;
    forall i | 0 <= i <= |c| - n
      ensures OccursAt(c, sch, i) ==> !NoDoubleSlash(c)
    {
      if OccursAt(c, sch, i) {
        assert sch[n - 2] == '/' && sch[n - 1] == '/';
        assert c[i..i + n] == sch;
        assert c[i..i + n][n - 2] == c[i + n - 2];
        assert c[i..i + n][n - 1] == c[i + n - 1];
        assert c[i + n - 2] == '/' && c[i + n - 1] == '/';
      }
    }
  }

  /**
   * When the separator is the scheme the flag prepends, normalizing a
   * normalized URL gives it back unchanged.
   */
  lemma {:induction false} NormalizeIdempotent(url: string, secure: bool)
    requires Normalize(url, Scheme(secure), secure).Some?
    ensures var u := Normalize(url, Scheme(secure), secure).value;
            Normalize(u, Scheme(secure), secure) == Some(u)
  {
    var sch := Scheme(secure);
    var u := Normalize(url, sch, secure).value;
    var c := ReplaceSlashRuns(SplitSecond(url, sch).value);
    assert u == sch + c;
    SchemeAbsentWithoutDoubleSlash(c, secure);
    SplitSecondAfterPrefix(sch, c);
    ReplaceSlashRunsFixpoint(c);
  }
}
