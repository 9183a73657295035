/** The copied-password history: most recent first, one entry per password, at most
    MaxHistory entries. These functions specify addToHistory on values. */
module History {

  /** One history entry; the timestamp is the caller's formatted capture time, kept opaque. */
  datatype HistoryItem = HistoryItem(password: string, timestamp: string)

  const MaxHistory: nat := 10

  /** The entries whose password differs from `p`, in their original order. */
  function Without(h: seq<HistoryItem>, p: string): (r: seq<HistoryItem>)
    ensures |r| <= |h|
    ensures forall i :: 0 <= i < |r| ==> r[i].password != p
    ensures forall x :: x in r ==> x in h
  {
    if h == [] then []
    else (if h[0].password == p then [] else [h[0]]) + Without(h[1..], p)
  }

  /** The history after recording `p` at time `t`: older entries for `p` dropped, the new
      entry put in front, the list cut to MaxHistory. The new entry comes first, the list
      respects the bound, and `p` occurs exactly once. */
  function Recorded(h: seq<HistoryItem>, p: string, t: string): (r: seq<HistoryItem>)
    ensures 0 < |r| <= MaxHistory
    ensures r[0] == HistoryItem(p, t)
    ensures forall i :: 1 <= i < |r| ==> r[i].password != p
  {
    var r := [HistoryItem(p, t)] + Without(h, p);
    if |r| > MaxHistory then r[..MaxHistory] else r
  }

  /** No password occurs twice. */
  predicate DistinctPasswords(h: seq<HistoryItem>) {
    forall i, j :: 0 <= i < j < |h| ==> h[i].password != h[j].password
  }

  function Min(a: int, b: int): int { if a < b then a else b }

  /** The entries of `s`, last first. */
  function Reverse(s: seq<HistoryItem>): (r: seq<HistoryItem>)
    ensures |r| == |s|
  {
    if s == [] then [] else [s[|s| - 1]] + Reverse(s[..|s| - 1])
  }

  /** Recording each entry of `items` in turn, starting from `h`. */
  function RecordAll(h: seq<HistoryItem>, items: seq<HistoryItem>): seq<HistoryItem> {
    if items == [] then h
    else
      var last := items[|items| - 1];
      Recorded(RecordAll(h, items[..|items| - 1]), last.password, last.timestamp)
  }

  /** An entry survives filtering exactly when it was there and has another password. */
  lemma {:induction false} WithoutMember(h: seq<HistoryItem>, p: string, x: HistoryItem)
    ensures x in Without(h, p) <==> x in h && x.password != p
  {
    if h != [] {
      WithoutMember(h[1..], p, x);
      assert h == [h[0]] + h[1..];
    }
  }

  /** Filtering a concatenation filters each part in place: the relative order is kept. */
  lemma {:induction false} WithoutAppend(a: seq<HistoryItem>, b: seq<HistoryItem>, p: string)
    ensures Without(a + b, p) == Without(a, p) + Without(b, p)
  {
    if a == [] {
      assert a + b == b;
    } else {
      assert (a + b)[1..] == a[1..] + b;
      WithoutAppend(a[1..], b, p);
    }
  }

  /** A history without `p` is left unchanged by the filter. */
  lemma {:induction false} WithoutAbsent(h: seq<HistoryItem>, p: string)
    requires forall i :: 0 <= i < |h| ==> h[i].password != p
    ensures Without(h, p) == h
  {
    if h != [] {
      WithoutAbsent(h[1..], p);
    }
  }

  /** Filtering keeps the passwords of a history distinct. */
  lemma {:induction false} WithoutDistinct(h: seq<HistoryItem>, p: string)
    requires DistinctPasswords(h)
    ensures DistinctPasswords(Without(h, p))
  {
    if h != [] {
      WithoutDistinct(h[1..], p);
      var rest := Without(h[1..], p);
      forall y | y in rest ensures y.password != h[0].password {
        var j :| 0 <= j < |h[1..]| && h[1..][j] == y;
        assert h[j + 1] == y;
      }
    }
  }

  /** After recording, the entries behind the new one are the first (at most
      MaxHistory - 1) old entries whose password differs from `p`, in their old order. */
  lemma RecordedRest(h: seq<HistoryItem>, p: string, t: string)
    ensures var w := Without(h, p);
            Recorded(h, p, t) == [HistoryItem(p, t)] + w[..Min(MaxHistory - 1, |w|)]
  {
  }

  /** Recording keeps the passwords of a history distinct. */
  lemma RecordedDistinct(h: seq<HistoryItem>, p: string, t: string)
    requires DistinctPasswords(h)
    ensures DistinctPasswords(Recorded(h, p, t))
  {
    WithoutDistinct(h, p);
    RecordedRest(h, p, t);
  }

  /** Recording a password that was just recorded only replaces its timestamp. */
  lemma RecordAgain(h: seq<HistoryItem>, p: string, t1: string, t2: string)
    ensures Recorded(Recorded(h, p, t1), p, t2) == Recorded(h, p, t2)
  {
    var w := Without(h, p);
    var m := Min(MaxHistory - 1, |w|);
    var first := Recorded(h, p, t1);
    RecordedRest(h, p, t1);
    assert first == [HistoryItem(p, t1)] + w[..m];
    assert first[1..] == w[..m];
    WithoutAbsent(w[..m], p);
    assert Without(first, p) == w[..m];
    RecordedRest(first, p, t2);
    assert w[..m][..Min(MaxHistory - 1, m)] == w[..m];
    RecordedRest(h, p, t2);
  }

  lemma {:induction false} ReverseMember(s: seq<HistoryItem>, x: HistoryItem)
    ensures x in Reverse(s) <==> x in s
  {
    if s != [] {
      ReverseMember(s[..|s| - 1], x);
      assert s == s[..|s| - 1] + [s[|s| - 1]];
    }
  }

  /** Recording entries with distinct passwords into an empty history leaves the
      MaxHistory most recent of them, most recent first. */
  lemma {:induction false} RecordAllDistinct(items: seq<HistoryItem>)
    requires DistinctPasswords(items)
    ensures RecordAll([], items) == Reverse(items)[..Min(MaxHistory, |items|)]
  {
    if items != [] {
      var n := |items| - 1;
      var pre, last := items[..n], items[n];
      assert DistinctPasswords(pre);
      RecordAllDistinct(pre);
      var before := Reverse(pre)[..Min(MaxHistory, n)];
      assert RecordAll([], items) == Recorded(before, last.password, last.timestamp);
      forall i | 0 <= i < |before| ensures before[i].password != last.password {
        assert before[i] in Reverse(pre);
        ReverseMember(pre, before[i]);
        var j :| 0 <= j < n && pre[j] == before[i];
      }
      WithoutAbsent(before, last.password);
      RecordedRest(before, last.password, last.timestamp);
      assert items == pre + [last];
      assert Reverse(items) == [last] + Reverse(pre);
    }
  }
}
