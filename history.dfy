/** The history query `find().sort({ createdAt: -1 }).limit(20)`: the stored
    records, newest first, cut to a limit. The store may order records with
    equal `createdAt` as it likes; this model keeps them in insertion order. */
module History {
  import opened Text
  import opened Schema

  predicate NewestFirst(s: seq<MailRecord>) {
    forall i, j :: 0 <= i < j < |s| ==> s[i].createdAt >= s[j].createdAt
  }

  /** Puts `x` into the newest-first sequence `s`. */
  function Insert(x: MailRecord, s: seq<MailRecord>): (r: seq<MailRecord>)
    requires NewestFirst(s)
    ensures multiset(r) == multiset(s) + multiset{x}
    ensures NewestFirst(r)
    ensures |r| == |s| + 1 && (r[0] == x || (s != [] && r[0] == s[0]))
  {
    if s == [] || x.createdAt >= s[0].createdAt then
      ConsNewestFirst(x, s);
      [x] + s
    else
      NewestFirstTail(s);
      var t := Insert(x, s[1..]);
      InsertStep(x, s, t);
      [s[0]] + t
  }

  /** The recursive case of `Insert`: `s[0]` goes in front of `t`, the
      insertion of `x` into the rest of `s`. */
  lemma InsertStep(x: MailRecord, s: seq<MailRecord>, t: seq<MailRecord>)
    requires NewestFirst(s) && s != [] && x.createdAt < s[0].createdAt
    requires multiset(t) == multiset(s[1..]) + multiset{x} && NewestFirst(t)
    requires |t| == |s| && (t[0] == x || (s[1..] != [] && t[0] == s[1..][0]))
    ensures multiset([s[0]] + t) == multiset(s) + multiset{x}
    ensures NewestFirst([s[0]] + t)
    ensures |[s[0]] + t| == |s| + 1 && ([s[0]] + t)[0] == s[0]
  {
    assert s == [s[0]] + s[1..];
    assert s[0].createdAt >= t[0].createdAt by {
      if t[0] != x { assert t[0] == s[1]; }
    }
    ConsNewestFirst(s[0], t);
  }

  lemma NewestFirstTail(s: seq<MailRecord>)
    requires NewestFirst(s) && s != []
    ensures NewestFirst(s[1..])
  {
    forall i, j | 0 <= i < j < |s| - 1 ensures s[1..][i].createdAt >= s[1..][j].createdAt {
      assert s[1..][i] == s[i + 1] && s[1..][j] == s[j + 1];
    }
  }

  /** A record no older than the head of a newest-first sequence may go in front. */
  lemma ConsNewestFirst(y: MailRecord, t: seq<MailRecord>)
    requires NewestFirst(t) && (t == [] || y.createdAt >= t[0].createdAt)
    ensures NewestFirst([y] + t)
  {
    var r := [y] + t;
    forall i, j | 0 <= i < j < |r| ensures r[i].createdAt >= r[j].createdAt {
      if i == 0 {
        assert r[j] == t[j - 1];
        assert t[0].createdAt >= t[j - 1].createdAt;
      } else {
        assert r[i] == t[i - 1] && r[j] == t[j - 1];
      }
    }
  }

  /** `sort({ createdAt: -1 })`. */
  function SortNewestFirst(s: seq<MailRecord>): (r: seq<MailRecord>)
    ensures multiset(r) == multiset(s) && |r| == |s|
    ensures NewestFirst(r)
  {
    if s == [] then []
    else
      assert s == [s[0]] + s[1..];
      Insert(s[0], SortNewestFirst(s[1..]))
  }

  /** `sort({ createdAt: -1 }).limit(limit)`. */
  function MostRecent(s: seq<MailRecord>, limit: nat): seq<MailRecord> {
    var t := SortNewestFirst(s);
    t[..Min(limit, |t|)]
  }

  /** The query returns `min(limit, |s|)` records, newest first, all taken
      from the store, and no record it leaves out is newer than any one it
      returns. */
  lemma MostRecentSpec(s: seq<MailRecord>, limit: nat)
    ensures var r := MostRecent(s, limit);
      |r| == Min(limit, |s|)
      && NewestFirst(r)
      && multiset(r) <= multiset(s)
      && forall x, k :: x in multiset(s) - multiset(r) && 0 <= k < |r| ==> x.createdAt <= r[k].createdAt
  {
    var t := SortNewestFirst(s);
    var n := Min(limit, |t|);
    SplitNewestFirst(t, n);
  }

  lemma SplitNewestFirst(t: seq<MailRecord>, n: nat)
    requires NewestFirst(t) && n <= |t|
    ensures NewestFirst(t[..n])
    ensures multiset(t[..n]) <= multiset(t)
    ensures multiset(t) - multiset(t[..n]) == multiset(t[n..])
    ensures forall x, k :: x in multiset(t[n..]) && 0 <= k < n ==> x.createdAt <= t[k].createdAt
  {
    assert t == t[..n] + t[n..];
    assert multiset(t) == multiset(t[..n]) + multiset(t[n..]);
    forall x, k | x in multiset(t[n..]) && 0 <= k < n
      ensures x.createdAt <= t[k].createdAt
    {
      var m :| 0 <= m < |t[n..]| && t[n..][m] == x;
      assert t[n + m] == x;
    }
  }
}
