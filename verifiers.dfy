/**
 * The comparison helpers of tests/dag.h. The C functions print one line per
 * mismatch and a summary; here each returns the structured outcome those lines
 * report: the verdict, the mismatches reported in order, and whether the scan
 * gave up after too many failures.
 */
module Verifiers {
  import opened DagUtil

  /** After this many mismatches an array verifier stops scanning. */
  const Cap: nat := 10

  datatype Verdict = Passed | Failed

  /** One reported mismatch: the position, the expected and the actual value. */
  datatype Mismatch<T> = Mismatch(index: nat, expected: T, got: T)

  /**
   * What one array verification reports: the verdict line, the mismatch lines
   * in the order printed, and whether "Too many failures" cut the scan short.
   */
  datatype Report<T> = Report(verdict: Verdict, mismatches: seq<Mismatch<T>>, truncated: bool)

  /** `m` is a genuine mismatch between `s` and `t`, with the values found there. */
  predicate RecordsMismatch<T(==)>(s: seq<T>, t: seq<T>, m: Mismatch<T>) {
    && m.index < |s| && m.index < |t|
    && s[m.index] != t[m.index]
    && m.expected == s[m.index] && m.got == t[m.index]
  }

  /** The positions below `n` at which `s` and `t` differ. */
  function MismatchSet<T(==)>(s: seq<T>, t: seq<T>, n: nat): set<nat>
    requires n <= |s| && n <= |t|
  {
    set i: nat | i < n && s[i] != t[i]
  }

  /**
   * Every mismatch among the first `n` positions, in increasing order of
   * position: exactly the records an uncapped scan would print.
   */
  function Mismatches<T(==)>(s: seq<T>, t: seq<T>, n: nat): (r: seq<Mismatch<T>>)
    requires n <= |s| && n <= |t|
    ensures |r| <= n
    ensures forall k :: 0 <= k < |r| ==> r[k].index < n && RecordsMismatch(s, t, r[k])
    ensures forall k, l :: 0 <= k < l < |r| ==> r[k].index < r[l].index
    decreases n
  {
    if n == 0 then []
    else
      var rest := Mismatches(s, t, n - 1);
      if s[n - 1] != t[n - 1] then rest + [Mismatch(n - 1, s[n - 1], t[n - 1])] else rest
  }

  /** No mismatch is left out of the list. */
  lemma {:induction false} MismatchesComplete<T>(s: seq<T>, t: seq<T>, n: nat, i: nat)
    requires i < n <= |s| && n <= |t|
    requires s[i] != t[i]
    ensures Mismatch(i, s[i], t[i]) in Mismatches(s, t, n)
    decreases n
  {
    if i < n - 1 {
      MismatchesComplete(s, t, n - 1, i);
    }
  }

  /** The list is empty exactly when the first `n` positions all agree. */
  lemma MismatchesEmpty<T>(s: seq<T>, t: seq<T>, n: nat)
    requires n <= |s| && n <= |t|
    ensures Mismatches(s, t, n) == [] <==> forall i :: 0 <= i < n ==> s[i] == t[i]
  {
    if Mismatches(s, t, n) == [] {
      forall i | 0 <= i < n
        ensures s[i] == t[i]
      {
        if s[i] != t[i] {
          MismatchesComplete(s, t, n, i);
        }
      }
    }
  }

  /** The list of mismatches grows only at its end as the scan moves on. */
  lemma {:induction false} MismatchesPrefix<T>(s: seq<T>, t: seq<T>, i: nat, j: nat)
    requires i <= j <= |s| && j <= |t|
    ensures Mismatches(s, t, i) <= Mismatches(s, t, j)
    decreases j
  {
    if i < j {
      MismatchesPrefix(s, t, i, j - 1);
    }
  }

  /** The mismatches among the first `n` positions depend on nothing past them. */
  lemma {:induction false} MismatchesOfPrefix<T>(s: seq<T>, t: seq<T>, s': seq<T>, t': seq<T>, n: nat)
    requires n <= |s| && n <= |t| && n <= |s'| && n <= |t'|
    requires s[..n] == s'[..n] && t[..n] == t'[..n]
    ensures Mismatches(s, t, n) == Mismatches(s', t', n)
    decreases n
  {
    if n > 0 {
      assert s[..n - 1] == s[..n][..n - 1] && s'[..n - 1] == s'[..n][..n - 1];
      assert t[..n - 1] == t[..n][..n - 1] && t'[..n - 1] == t'[..n][..n - 1];
      MismatchesOfPrefix(s, t, s', t', n - 1);
      assert s[n - 1] == s[..n][n - 1] == s'[n - 1];
      assert t[n - 1] == t[..n][n - 1] == t'[n - 1];
    }
  }

  /** The list holds one record per mismatching position: its length is the mismatch count. */
  lemma {:induction false} MismatchCount<T>(s: seq<T>, t: seq<T>, n: nat)
    requires n <= |s| && n <= |t|
    ensures |Mismatches(s, t, n)| == |MismatchSet(s, t, n)|
    decreases n
  {
    if n > 0 {
      MismatchCount(s, t, n - 1);
      if s[n - 1] != t[n - 1] {
        assert MismatchSet(s, t, n) == MismatchSet(s, t, n - 1) + {n - 1};
      } else {
        assert MismatchSet(s, t, n) == MismatchSet(s, t, n - 1);
      }
    }
  }

  /**
   * The report of a scan over the first `n` positions: the first `Cap`
   * mismatches and "too many failures" once the `Cap`-th is met (even at the
   * last position), otherwise every mismatch and a verdict that is `Passed`
   * exactly when there is none.
   */
  function ScanReport<T(==)>(s: seq<T>, t: seq<T>, n: nat): (r: Report<T>)
    requires n <= |s| && n <= |t|
    ensures r.verdict == Passed <==> forall i :: 0 <= i < n ==> s[i] == t[i]
    ensures r.truncated <==> |MismatchSet(s, t, n)| >= Cap
    ensures r.truncated ==> r.verdict == Failed
    ensures r.mismatches <= Mismatches(s, t, n)
    ensures |r.mismatches| == Minl(Cap, |MismatchSet(s, t, n)|)
  {
    var all := Mismatches(s, t, n);
    MismatchCount(s, t, n);
    MismatchesEmpty(s, t, n);
    if |all| >= Cap then Report(Failed, all[..Cap], true)
    else Report(if |all| == 0 then Passed else Failed, all, false)
  }

  /**
   * The reported mismatches are the earliest ones: a mismatch left out of the
   * report lies after every reported one, and only a truncated report leaves
   * any out.
   */
  lemma ReportedAreTheFirst<T>(s: seq<T>, t: seq<T>, n: nat, i: nat)
    requires i < n <= |s| && n <= |t|
    requires s[i] != t[i]
    ensures var r := ScanReport(s, t, n);
      || Mismatch(i, s[i], t[i]) in r.mismatches
      || (r.truncated && forall m :: m in r.mismatches ==> m.index < i)
  {
    var all, r := Mismatches(s, t, n), ScanReport(s, t, n);
    MismatchesComplete(s, t, n, i);
    var p :| 0 <= p < |all| && all[p] == Mismatch(i, s[i], t[i]);
    if Cap <= p {
      assert r.truncated && r.mismatches == all[..Cap];
      forall m | m in r.mismatches
        ensures m.index < i
      {
        var k :| 0 <= k < Cap && all[k] == m;
      }
    } else {
      assert r.mismatches[p] == all[p];
    }
  }

  /**
   * Once the `Cap`-th mismatch has been met before position `k`, nothing from
   * position `k` on is looked at: two scans that agree on the first `k`
   * positions report the same, however long each of them is.
   */
  lemma ScanStopsAtCap<T>(s: seq<T>, t: seq<T>, n: nat, s': seq<T>, t': seq<T>, n': nat, k: nat)
    requires k <= n <= |s| && n <= |t|
    requires k <= n' <= |s'| && n' <= |t'|
    requires s[..k] == s'[..k] && t[..k] == t'[..k]
    requires |Mismatches(s, t, k)| >= Cap
    ensures ScanReport(s, t, n) == ScanReport(s', t', n')
  {
    var early := Mismatches(s, t, k);
    MismatchesOfPrefix(s, t, s', t', k);
    MismatchesPrefix(s, t, k, n);
    MismatchesPrefix(s', t', k, n');
    var all, all' := Mismatches(s, t, n), Mismatches(s', t', n');
    assert all[..Cap] == early[..Cap] == all'[..Cap];
  }

  /** A C `for` loop up to a negative bound compares nothing. */
  function ScanLength(len: int): (n: nat)
    ensures len <= 0 ==> n == 0
    ensures len >= 0 ==> n == len
  {
    if len < 0 then 0 else len
  }

  /**
   * `verifyArrays`: compare the first `len` integers of `standard` and `test`,
   * counting mismatches and giving up as soon as the count reaches `Cap`.
   */
  method VerifyArrays(standard: array<int>, test: array<int>, len: int) returns (r: Report<int>)
    requires len <= standard.Length && len <= test.Length
    ensures r == ScanReport(standard[..], test[..], ScanLength(len))
  {
    ghost var s, t, n := standard[..], test[..], ScanLength(len);
    var passed := 0;
    var reported: seq<Mismatch<int>> := [];
    var i := 0;
    while i < len
      invariant 0 <= i <= n
      invariant passed == |reported| < Cap
      invariant reported == Mismatches(s, t, i)
    {
      if standard[i] != test[i] {
        reported := reported + [Mismatch(i, standard[i], test[i])];
        passed := passed + 1;
      }
      if passed >= Cap {
        MismatchesPrefix(s, t, i + 1, n);
        assert Mismatches(s, t, n)[..Cap] == reported;
        MismatchCount(s, t, n);
        return Report(Failed, reported, true);
      }
      i := i + 1;
    }
    MismatchCount(s, t, n);
    r := Report(if passed == 0 then Passed else Failed, reported, false);
  }

  /**
   * `verifyBoolArrays`: the same scan over booleans. Each record holds the
   * position and the two booleans that the C mismatch line prints through
   * `getBool`.
   */
  method VerifyBoolArrays(standard: array<bool>, test: array<bool>, len: int) returns (r: Report<bool>)
    requires len <= standard.Length && len <= test.Length
    ensures r == ScanReport(standard[..], test[..], ScanLength(len))
  {
    ghost var s, t, n := standard[..], test[..], ScanLength(len);
    var passed := 0;
    var reported: seq<Mismatch<bool>> := [];
    var i := 0;
    while i < len
      invariant 0 <= i <= n
      invariant passed == |reported| < Cap
      invariant reported == Mismatches(s, t, i)
    {
      if standard[i] != test[i] {
        reported := reported + [Mismatch(i, standard[i], test[i])];
        passed := passed + 1;
      }
      if passed >= Cap {
        MismatchesPrefix(s, t, i + 1, n);
        assert Mismatches(s, t, n)[..Cap] == reported;
        MismatchCount(s, t, n);
        return Report(Failed, reported, true);
      }
      i := i + 1;
    }
    MismatchCount(s, t, n);
    r := Report(if passed == 0 then Passed else Failed, reported, false);
  }

  /** `getBool`: the text a boolean is printed as. */
  function GetBool(b: bool): (text: string)
    ensures b ==> text == "true"
    ensures !b ==> text == "false"
  {
    if b then "true" else "false"
  }

  /** Different booleans are never printed alike, so a boolean mismatch line never reads "Expected true, Got true". */
  lemma GetBoolInjective(a: bool, b: bool)
    ensures GetBool(a) == GetBool(b) <==> a == b
  {
  }

  /** `verifyInt`: a single comparison, passing exactly when the two values are equal. */
  function VerifyInt(a: int, b: int): (v: Verdict)
    ensures v == Passed <==> a == b
  {
    if a != b then Failed else Passed
  }

  /**
   * `verifyInt` gives the verdict a one-element `verifyArrays` scan gives, and
   * on a mismatch reports the same expected and actual values.
   */
  lemma VerifyIntIsSingletonScan(a: int, b: int)
    ensures VerifyInt(a, b) == ScanReport([a], [b], 1).verdict
    ensures a != b ==> ScanReport([a], [b], 1).mismatches == [Mismatch(0, a, b)]
    ensures !ScanReport([a], [b], 1).truncated
  {
  }
}
