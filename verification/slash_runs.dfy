/**
 * The slash clean-up step of `normalizeUrl`: the global regular-expression
 * replacement `replace(/([\/])\1+/g, '/')`, which turns every run of two or
 * more '/' into a single '/'.
 */
module SlashRuns {

  predicate StartsWithSlash(s: string) {
    |s| > 0 && s[0] == '/'
  }

  /** No two adjacent '/' characters. */
  predicate NoDoubleSlash(s: string) {
    forall i | 0 <= i < |s| - 1 :: !(s[i] == '/' && s[i + 1] == '/')
  }

  /** `s` with every '/' removed; all other characters kept in order. */
  function StripSlashes(s: string): string {
    if |s| == 0 then []
    else (if s[0] == '/' then [] else [s[0]]) + StripSlashes(s[1..])
  }

  /** Length of the run of '/' that begins `s` (what the greedy `\1+` consumes). */
  function LeadingSlashes(s: string): (n: nat)
    ensures n <= |s|
    ensures forall k | 0 <= k < n :: s[k] == '/'
    ensures n == |s| || s[n] != '/'
  {
    if |s| == 0 || s[0] != '/' then 0 else 1 + LeadingSlashes(s[1..])
  }

  lemma {:induction false} StripSlashRun(s: string, n: nat)
    requires n <= |s|
    requires forall k | 0 <= k < n :: s[k] == '/'
    ensures StripSlashes(s) == StripSlashes(s[n..])
    decreases n
  {
    if n > 0 {
      StripSlashRun(s[1..], n - 1);
      assert s[1..][n - 1..] == s[n..];
    }
  }

  /**
   * The regex replacement as the engine performs it: at each position, a
   * '/' followed by at least one more '/' is a match; the greedy `\1+`
   * takes the whole run, which is replaced by one '/', and scanning resumes
   * after it. Any other character is copied and scanning moves on by one.
   */
  function ReplaceSlashRuns(s: string): (r: string)
    ensures NoDoubleSlash(r)
    ensures StripSlashes(r) == StripSlashes(s)
    ensures |r| <= |s|
    ensures StartsWithSlash(r) <==> StartsWithSlash(s)
    decreases |s|
  {
    if |s| == 0 then []
    else
      var n := LeadingSlashes(s);
      if n >= 2 then
        StripSlashRun(s, n);
        var t := ReplaceSlashRuns(s[n..]);
        assert forall i | 1 <= i < |t| + 1 :: ("/" + t)[i] == t[i - 1];
        "/" + t
      else
        var t := ReplaceSlashRuns(s[1..]);
        assert forall i | 1 <= i < |t| + 1 :: ([s[0]] + t)[i] == t[i - 1];
        [s[0]] + t
  }

  /** Reference definition: drop every '/' that is immediately followed by another '/'. */
  function Collapse(s: string): string
    decreases |s|
  {
    if |s| < 2 then s
    else if s[0] == '/' && s[1] == '/' then Collapse(s[1..])
    else [s[0]] + Collapse(s[1..])
  }

  lemma {:induction false} CollapseSkipsRun(s: string, n: nat)
    requires 1 <= n <= |s|
    requires forall k | 0 <= k < n :: s[k] == '/'
    ensures Collapse(s) == Collapse(s[n - 1..])
    decreases n
  {
    if n > 1 {
      CollapseSkipsRun(s[1..], n - 1);
      assert s[1..][n - 2..] == s[n - 1..];
    }
  }

  /** The regex replacement agrees with the reference definition on every input. */
  lemma {:induction false} ReplaceSlashRunsIsCollapse(s: string)
    ensures ReplaceSlashRuns(s) == Collapse(s)
    decreases |s|
  {
    if |s| > 0 {
      var n := LeadingSlashes(s);
      if n >= 2 {
        CollapseSkipsRun(s, n);
        ReplaceSlashRunsIsCollapse(s[n..]);
        var u := s[n - 1..];
        assert u[1..] == s[n..];
        if |u| >= 2 {
          assert u[1] == s[n];
        }
      } else {
        ReplaceSlashRunsIsCollapse(s[1..]);
      }
    }
  }

  /**
   * A string is left unchanged exactly when it has no two adjacent '/', and
   * it gets strictly shorter exactly when it has them.
   */
  lemma {:induction false} ReplaceSlashRunsFixpoint(s: string)
    ensures ReplaceSlashRuns(s) == s <==> NoDoubleSlash(s)
    ensures |ReplaceSlashRuns(s)| < |s| <==> !NoDoubleSlash(s)
    decreases |s|
  {
    if |s| > 0 {
      var n := LeadingSlashes(s);
      if n >= 2 {
        assert s[0] == '/' && s[1] == '/';
      } else {
        ReplaceSlashRunsFixpoint(s[1..]);
        if NoDoubleSlash(s) {
          assert NoDoubleSlash(s[1..]) by {
            forall i | 0 <= i < |s[1..]| - 1
              ensures !(s[1..][i] == '/' && s[1..][i + 1] == '/')
            {
              assert s[1..][i] == s[i + 1] && s[1..][i + 1] == s[i + 2];
            }
          }
          assert s == [s[0]] + s[1..];
        } else {
          var i :| 0 <= i < |s| - 1 && s[i] == '/' && s[i + 1] == '/';
          assert i > 0;
          assert s[1..][i - 1] == '/' && s[1..][i] == '/';
        }
      }
    }
  }

  /** Replacing twice gives the same string as replacing once. */
  lemma ReplaceSlashRunsIdempotent(s: string)
    ensures ReplaceSlashRuns(ReplaceSlashRuns(s)) == ReplaceSlashRuns(s)
  {
    ReplaceSlashRunsFixpoint(ReplaceSlashRuns(s));
  }
}
