// The retrieval core of rag.py: Reciprocal Rank Fusion over several ranked
// result lists, the two-stage (summaries, then details) retriever over an
// abstract vector store, the line split of the query-expansion output, and
// the tool facade that turns every failure into an error text.

module Rag {
  import opened Common
  import opened Strings

  /** A fused result: a document and its accumulated score. */
  type Scored = (Document, real)

  /** The default `k` of `reciprocal_rank_fusion`. */
  const RrfK: nat := 60

  // ---------------------------------------------------------------------
  // Scores

  /** What one ranked list contributes to `d`: 1/(r + k) for every
      zero-based rank r at which `d` occurs in it (repeats included). */
  function ListScore(docs: seq<Document>, k: nat, d: Document): real
    requires k > 0
    decreases |docs|
  {
    if docs == [] then 0.0
    else
      var last := if docs[|docs| - 1] == d then 1.0 / ((|docs| - 1 + k) as real) else 0.0;
      ListScore(docs[..|docs| - 1], k, d) + last
  }

  /** The fused score of `d`: the sum of its contributions over all lists. */
  function Score(results: seq<seq<Document>>, k: nat, d: Document): real
    requires k > 0
    decreases |results|
  {
    if results == [] then 0.0
    else Score(results[..|results| - 1], k, d) + ListScore(results[|results| - 1], k, d)
  }

  predicate Occurs(results: seq<seq<Document>>, d: Document)
  {
    exists i :: 0 <= i < |results| && d in results[i]
  }

  /** A list contributes a positive amount exactly when it contains `d`. */
  lemma {:induction false} ListScoreSign(docs: seq<Document>, k: nat, d: Document)
    requires k > 0
    ensures ListScore(docs, k, d) >= 0.0
    ensures ListScore(docs, k, d) > 0.0 <==> d in docs
    decreases |docs|
  {
    if docs != [] {
      var init, last := docs[..|docs| - 1], docs[|docs| - 1];
      var weight := 1.0 / ((|docs| - 1 + k) as real);
      ListScoreSign(init, k, d);
      ReciprocalPositive(|docs| - 1 + k);
      assert docs == init + [last];
      if last == d {
        assert ListScore(docs, k, d) == ListScore(init, k, d) + weight;
      } else {
        assert ListScore(docs, k, d) == ListScore(init, k, d);
      }
    }
  }

  lemma ReciprocalPositive(n: nat)
    requires n > 0
    ensures 1.0 / (n as real) > 0.0
  {
  }

  /** An entry has a positive fused score exactly when it occurs in some list. */
  lemma {:induction false} ScoreSign(results: seq<seq<Document>>, k: nat, d: Document)
    requires k > 0
    ensures Score(results, k, d) >= 0.0
    ensures Score(results, k, d) > 0.0 <==> Occurs(results, d)
    decreases |results|
  {
    if results != [] {
      var n := |results|;
      var init := results[..n - 1];
      ScoreSign(init, k, d);
      ListScoreSign(results[n - 1], k, d);
      if Occurs(init, d) {
        var i :| 0 <= i < n - 1 && d in init[i];
        assert results[i] == init[i];
      }
      if Occurs(results, d) && !(d in results[n - 1]) {
        var i :| 0 <= i < n && d in results[i];
        assert i < n - 1 && init[i] == results[i];
      }
    }
  }

  /** Scores add up over concatenated collections of lists. */
  lemma {:induction false} ScoreAppend(xs: seq<seq<Document>>, ys: seq<seq<Document>>, k: nat, d: Document)
    requires k > 0
    ensures Score(xs + ys, k, d) == Score(xs, k, d) + Score(ys, k, d)
    decreases |ys|
  {
    if ys == [] {
      assert xs + ys == xs;
    } else {
      var m := |ys|;
      assert (xs + ys)[..|xs + ys| - 1] == xs + ys[..m - 1];
      ScoreAppend(xs, ys[..m - 1], k, d);
    }
  }

  /** The order of the outer lists does not matter: any rearrangement of
      them gives every entry the same score. */
  lemma {:induction false} ScoreOrderFree(a: seq<seq<Document>>, b: seq<seq<Document>>, k: nat, d: Document)
    requires k > 0
    requires multiset(a) == multiset(b)
    ensures Score(a, k, d) == Score(b, k, d)
    decreases |a|
  {
    if a == [] {
      assert |b| == |multiset(b)| == 0;
    } else {
      var n := |a|;
      var last := a[n - 1];
      assert last in multiset(b) by { assert a == a[..n - 1] + [last]; assert last in multiset(a); }
      var j :| 0 <= j < |b| && b[j] == last;
      var rest := b[..j] + b[j + 1..];
      assert b == b[..j] + [last] + b[j + 1..];
      WithoutOne(a, n - 1);
      WithoutOne(b, j);
      assert a[..n - 1] + a[n..] == a[..n - 1];
      ScoreOrderFree(a[..n - 1], rest, k, d);
      ScoreAppend(b[..j], [last], k, d);
      ScoreAppend(b[..j] + [last], b[j + 1..], k, d);
      ScoreAppend(b[..j], b[j + 1..], k, d);
      assert Score([last], k, d) == ListScore(last, k, d) by { assert [last][..0] == []; }
    }
  }

  /** Removing one element removes one occurrence from the multiset. */
  lemma WithoutOne<T>(s: seq<T>, j: nat)
    requires j < |s|
    ensures multiset(s[..j] + s[j + 1..]) == multiset(s) - multiset{s[j]}
  {
    assert s == s[..j] + [s[j]] + s[j + 1..];
  }

  /** Fusing a list with itself gives every entry exactly twice the score it
      gets from that list alone. */
  lemma SelfFusionDoubles(docs: seq<Document>, k: nat, d: Document)
    requires k > 0
    ensures Score([docs, docs], k, d) == 2.0 * Score([docs], k, d)
  {
    assert [docs, docs][..1] == [docs];
    assert [docs][..0] == [];
  }

  // ---------------------------------------------------------------------
  // First-seen order of the fused dictionary's keys

  function AddKey(keys: seq<Document>, d: Document): seq<Document>
  {
    if d in keys then keys else keys + [d]
  }

  /** The keys after scanning `docs`: new entries are appended in the order
      they are first met. */
  function AddKeys(keys: seq<Document>, docs: seq<Document>): seq<Document>
    decreases |docs|
  {
    if docs == [] then keys else AddKey(AddKeys(keys, docs[..|docs| - 1]), docs[|docs| - 1])
  }

  /** The keys of the fused-score dictionary after all lists, in insertion order. */
  function Seen(results: seq<seq<Document>>): seq<Document>
    decreases |results|
  {
    if results == [] then [] else AddKeys(Seen(results[..|results| - 1]), results[|results| - 1])
  }

  predicate Distinct(keys: seq<Document>)
  {
    forall i, j :: 0 <= i < j < |keys| ==> keys[i] != keys[j]
  }

  lemma {:induction false} AddKeysProps(keys: seq<Document>, docs: seq<Document>)
    requires Distinct(keys)
    ensures Distinct(AddKeys(keys, docs))
    ensures forall d :: d in AddKeys(keys, docs) <==> d in keys || d in docs
    decreases |docs|
  {
    if docs != [] {
      var init := docs[..|docs| - 1];
      AddKeysProps(keys, init);
      assert docs == init + [docs[|docs| - 1]];
    }
  }

  /** Keys already present are not added again. */
  lemma {:induction false} AddKeysAbsorbs(keys: seq<Document>, docs: seq<Document>)
    requires forall d :: d in docs ==> d in keys
    ensures AddKeys(keys, docs) == keys
    decreases |docs|
  {
    if docs != [] {
      var init := docs[..|docs| - 1];
      assert forall d :: d in init ==> d in docs;
      AddKeysAbsorbs(keys, init);
      assert docs[|docs| - 1] in docs;
    }
  }

  /** The dictionary holds each entry once, and holds exactly the entries of
      the input lists. */
  lemma {:induction false} SeenProps(results: seq<seq<Document>>)
    ensures Distinct(Seen(results))
    ensures forall d :: d in Seen(results) <==> Occurs(results, d)
    decreases |results|
  {
    if results != [] {
      var n := |results|;
      var init := results[..n - 1];
      SeenProps(init);
      AddKeysProps(Seen(init), results[n - 1]);
      forall d ensures d in Seen(results) <==> Occurs(results, d) {
        if Occurs(init, d) {
          var i :| 0 <= i < n - 1 && d in init[i];
          assert results[i] == init[i];
        }
        if Occurs(results, d) && !(d in results[n - 1]) {
          var i :| 0 <= i < n && d in results[i];
          assert i < n - 1 && init[i] == results[i];
        }
      }
    }
  }

  // ---------------------------------------------------------------------
  // Stable sort by score, highest first (`sorted(..., reverse=True)`)

  /** Places `p` before the first element whose score is not higher, so that
      among equal scores `p` comes first. */
  function InsertByScore(p: Scored, s: seq<Scored>): seq<Scored>
    decreases |s|
  {
    if s == [] || s[0].1 <= p.1 then [p] + s else [s[0]] + InsertByScore(p, s[1..])
  }

  function SortByScore(s: seq<Scored>): seq<Scored>
    decreases |s|
  {
    if s == [] then [] else InsertByScore(s[0], SortByScore(s[1..]))
  }

  predicate NonIncreasing(s: seq<Scored>)
  {
    forall i, j :: 0 <= i < j < |s| ==> s[i].1 >= s[j].1
  }

  /** The elements of `s` whose score is `v`, in their order in `s`. */
  function WithScore(s: seq<Scored>, v: real): seq<Scored>
    decreases |s|
  {
    if s == [] then [] else (if s[0].1 == v then [s[0]] else []) + WithScore(s[1..], v)
  }

  predicate DistinctEntries(s: seq<Scored>)
  {
    forall i, j :: 0 <= i < j < |s| ==> s[i].0 != s[j].0
  }

  predicate HasEntry(s: seq<Scored>, d: Document)
  {
    exists i :: 0 <= i < |s| && s[i].0 == d
  }

  lemma InsertProps(p: Scored, s: seq<Scored>)
    requires NonIncreasing(s)
    ensures NonIncreasing(InsertByScore(p, s))
    ensures multiset(InsertByScore(p, s)) == multiset(s) + multiset{p}
  {
    InsertSorted(p, s);
    InsertPermutes(p, s);
  }

  lemma {:induction false} InsertSorted(p: Scored, s: seq<Scored>)
    requires NonIncreasing(s)
    ensures NonIncreasing(InsertByScore(p, s))
    decreases |s|
  {
    if s != [] && s[0].1 > p.1 {
      InsertSorted(p, s[1..]);
      InsertElements(p, s[1..]);
      var t, r := InsertByScore(p, s[1..]), InsertByScore(p, s);
      assert r == [s[0]] + t;
      forall j | 0 <= j < |t| ensures s[0].1 >= t[j].1 {
        assert t[j] in t;
        if t[j] != p {
          var m :| 0 <= m < |s| - 1 && s[1..][m] == t[j];
          assert s[m + 1] == t[j];
        }
      }
      forall i, j | 0 <= i < j < |r| ensures r[i].1 >= r[j].1 {
        assert r[j] == t[j - 1];
        if i > 0 {
          assert r[i] == t[i - 1];
        }
      }
    }
  }

  lemma {:induction false} InsertPermutes(p: Scored, s: seq<Scored>)
    ensures multiset(InsertByScore(p, s)) == multiset(s) + multiset{p}
    decreases |s|
  {
    if s != [] && s[0].1 > p.1 {
      InsertPermutes(p, s[1..]);
      assert s == [s[0]] + s[1..];
    }
  }

  lemma {:induction false} SortProps(s: seq<Scored>)
    ensures NonIncreasing(SortByScore(s))
    ensures multiset(SortByScore(s)) == multiset(s)
    decreases |s|
  {
    if s != [] {
      SortProps(s[1..]);
      InsertProps(s[0], SortByScore(s[1..]));
      assert s == [s[0]] + s[1..];
    }
  }

  lemma {:induction false} InsertKeepsTies(p: Scored, s: seq<Scored>, v: real)
    requires NonIncreasing(s)
    ensures WithScore(InsertByScore(p, s), v) == WithScore([p] + s, v)
    decreases |s|
  {
    if s != [] && s[0].1 > p.1 {
      InsertKeepsTies(p, s[1..], v);
      assert ([p] + s)[1..] == s;
      assert ([s[0]] + InsertByScore(p, s[1..]))[1..] == InsertByScore(p, s[1..]);
      assert ([p] + s[1..])[1..] == s[1..];
    }
  }

  /** Stability: for every score, the entries having that score appear in
      the sorted output in the same order as in the input. */
  lemma {:induction false} SortKeepsTies(s: seq<Scored>, v: real)
    ensures WithScore(SortByScore(s), v) == WithScore(s, v)
    decreases |s|
  {
    if s != [] {
      SortKeepsTies(s[1..], v);
      SortProps(s[1..]);
      InsertKeepsTies(s[0], SortByScore(s[1..]), v);
      assert ([s[0]] + SortByScore(s[1..]))[1..] == SortByScore(s[1..]);
    }
  }

  lemma {:induction false} SortKeepsDistinct(s: seq<Scored>)
    requires DistinctEntries(s)
    ensures DistinctEntries(SortByScore(s))
    decreases |s|
  {
    if s != [] {
      var t := SortByScore(s[1..]);
      SortKeepsDistinct(s[1..]);
      SortProps(s[1..]);
      forall j | 0 <= j < |t| ensures t[j].0 != s[0].0 {
        assert t[j] in multiset(s[1..]);
        var m :| 0 <= m < |s[1..]| && s[1..][m] == t[j];
        assert s[m + 1] == t[j];
      }
      InsertKeepsDistinct(s[0], t);
    }
  }

  lemma {:induction false} InsertKeepsDistinct(p: Scored, s: seq<Scored>)
    requires DistinctEntries(s)
    requires forall j :: 0 <= j < |s| ==> s[j].0 != p.0
    ensures DistinctEntries(InsertByScore(p, s))
    decreases |s|
  {
    if s != [] && s[0].1 > p.1 {
      var t := InsertByScore(p, s[1..]);
      InsertKeepsDistinct(p, s[1..]);
      InsertElements(p, s[1..]);
      forall j | 0 <= j < |t| ensures t[j].0 != s[0].0 {
        assert t[j] in t;
        if t[j] != p {
          assert t[j] in s[1..];
          var m :| 0 <= m < |s[1..]| && s[1..][m] == t[j];
          assert s[m + 1] == t[j];
        }
      }
    }
  }

  lemma {:induction false} InsertElements(p: Scored, s: seq<Scored>)
    ensures forall x :: x in InsertByScore(p, s) <==> x == p || x in s
    decreases |s|
  {
    if s != [] && s[0].1 > p.1 {
      InsertElements(p, s[1..]);
      assert s == [s[0]] + s[1..];
    }
  }

  // ---------------------------------------------------------------------
  // Reciprocal Rank Fusion

  /** Each dictionary key with its accumulated score, in insertion order. */
  function ScoredKeys(keys: seq<Document>, results: seq<seq<Document>>, k: nat): (s: seq<Scored>)
    requires k > 0
    ensures |s| == |keys|
  {
    seq(|keys|, i requires 0 <= i < |keys| => (keys[i], Score(results, k, keys[i])))
  }

  /** What `reciprocal_rank_fusion(results, k)` returns: one entry per
      distinct document, ordered by score, highest first. */
  function Fuse(results: seq<seq<Document>>, k: nat): (r: seq<Scored>)
    requires k > 0
    ensures NonIncreasing(r)
    ensures |r| == |Seen(results)|
  {
    var keyed := ScoredKeys(Seen(results), results, k);
    SortProps(keyed);
    assert |multiset(SortByScore(keyed))| == |multiset(keyed)|;
    SortByScore(keyed)
  }

  /** Every fused entry carries the sum of 1/(rank + k) over all its
      occurrences, and that sum is positive. */
  lemma FuseScores(results: seq<seq<Document>>, k: nat)
    requires k > 0
    ensures forall i :: 0 <= i < |Fuse(results, k)| ==>
      Fuse(results, k)[i].1 == Score(results, k, Fuse(results, k)[i].0) > 0.0
  {
    var s := ScoredKeys(Seen(results), results, k);
    var r := Fuse(results, k);
    SortProps(s);
    SeenProps(results);
    forall i | 0 <= i < |r| ensures r[i].1 == Score(results, k, r[i].0) > 0.0 {
      assert r[i] in multiset(s);
      var j :| 0 <= j < |s| && s[j] == r[i];
      assert Seen(results)[j] in Seen(results);
      ScoreSign(results, k, r[i].0);
    }
  }

  /** No entry appears twice, and the fused entries are exactly the entries
      of the input lists. */
  lemma FuseEntries(results: seq<seq<Document>>, k: nat)
    requires k > 0
    ensures DistinctEntries(Fuse(results, k))
    ensures forall d :: HasEntry(Fuse(results, k), d) <==> Occurs(results, d)
  {
    var keys := Seen(results);
    var s := ScoredKeys(keys, results, k);
    var r := Fuse(results, k);
    SeenProps(results);
    SortKeepsDistinct(s);
    SortProps(s);
    forall d ensures HasEntry(r, d) <==> Occurs(results, d) {
      if HasEntry(r, d) {
        var i :| 0 <= i < |r| && r[i].0 == d;
        assert r[i] in multiset(s);
        var j :| 0 <= j < |s| && s[j] == r[i];
        assert keys[j] in keys;
      }
      if Occurs(results, d) {
        var j :| 0 <= j < |keys| && keys[j] == d;
        assert s[j] in multiset(r);
        var i :| 0 <= i < |r| && r[i] == s[j];
      }
    }
  }

  /** Ties keep first-seen order: for every score, the entries having it come
      out in the order in which they were first met in the input lists. */
  lemma FuseTiesFirstSeen(results: seq<seq<Document>>, k: nat, v: real)
    requires k > 0
    ensures WithScore(Fuse(results, k), v) == WithScore(ScoredKeys(Seen(results), results, k), v)
  {
    SortKeepsTies(ScoredKeys(Seen(results), results, k), v);
  }

  /** No lists, or only empty lists, fuse to the empty list. */
  lemma FuseEmpty(results: seq<seq<Document>>, k: nat)
    requires k > 0
    requires forall i :: 0 <= i < |results| ==> results[i] == []
    ensures Fuse(results, k) == []
  {
    SeenProps(results);
    if Seen(results) != [] {
      assert Seen(results)[0] in Seen(results);
    }
  }

  function Doubled(s: seq<Scored>): (r: seq<Scored>)
    ensures |r| == |s|
  {
    seq(|s|, i requires 0 <= i < |s| => (s[i].0, 2.0 * s[i].1))
  }

  lemma {:induction false} SortDoubled(s: seq<Scored>)
    ensures SortByScore(Doubled(s)) == Doubled(SortByScore(s))
    decreases |s|
  {
    if s != [] {
      SortDoubled(s[1..]);
      assert Doubled(s)[1..] == Doubled(s[1..]);
      InsertDoubled(s[0], SortByScore(s[1..]));
    }
  }

  lemma {:induction false} InsertDoubled(p: Scored, s: seq<Scored>)
    ensures InsertByScore((p.0, 2.0 * p.1), Doubled(s)) == Doubled(InsertByScore(p, s))
    decreases |s|
  {
    if s != [] {
      assert Doubled(s)[1..] == Doubled(s[1..]);
      if s[0].1 > p.1 {
        InsertDoubled(p, s[1..]);
      }
    }
  }

  /** `fuse([L, L])` is `fuse([L])` with every score doubled: same entries, same order. */
  lemma FuseSelfDoubles(docs: seq<Document>, k: nat)
    requires k > 0
    ensures Fuse([docs, docs], k) == Doubled(Fuse([docs], k))
  {
    var once := Seen([docs]);
    var none: seq<seq<Document>> := [];
    assert [docs][..0] == none;
    assert Seen(none) == [];
    assert once == AddKeys(Seen(none), docs);
    assert [docs, docs][..1] == [docs];
    AddKeysProps([], docs);
    AddKeysAbsorbs(once, docs);
    assert Seen([docs, docs]) == AddKeys(Seen([docs]), docs);
    assert Seen([docs, docs]) == once;
    forall d { SelfFusionDoubles(docs, k, d); }
    assert ScoredKeys(once, [docs, docs], k) == Doubled(ScoredKeys(once, [docs], k));
    SortDoubled(ScoredKeys(once, [docs], k));
  }

  /** An entry met at ranks 0 and 2 of two lists (score 1/60 + 1/62) is
      ranked above an entry met once at rank 0 (score 1/60). */
  lemma ConsensusRanksFirst(a: Document, b: Document, c: Document, d: Document, e: Document)
    requires a != b && a != c && a != d && a != e && d != b && d != c && d != e
    ensures Score([[a, b, c], [d, e, a]], RrfK, a) == 1.0 / 60.0 + 1.0 / 62.0
    ensures Score([[a, b, c], [d, e, a]], RrfK, d) == 1.0 / 60.0
    ensures var r := Fuse([[a, b, c], [d, e, a]], RrfK);
      forall i, j :: 0 <= i < |r| && 0 <= j < |r| && r[i].0 == a && r[j].0 == d ==> i < j
  {
    var results := [[a, b, c], [d, e, a]];
    var l1, l2 := [a, b, c], [d, e, a];
    var none: seq<seq<Document>> := [];
    var empty: seq<Document> := [];
    assert results[..1] == [l1] && [l1][..0] == none;
    assert l1[..2] == [a, b] && [a, b][..1] == [a] && [a][..0] == empty;
    assert l2[..2] == [d, e] && [d, e][..1] == [d] && [d][..0] == empty;
    assert ListScore(empty, RrfK, a) == 0.0 && ListScore(empty, RrfK, d) == 0.0;
    assert ListScore([a], RrfK, a) == 1.0 / 60.0 && ListScore([a], RrfK, d) == 0.0;
    assert ListScore([a, b], RrfK, a) == 1.0 / 60.0 && ListScore([a, b], RrfK, d) == 0.0;
    assert ListScore(l1, RrfK, a) == 1.0 / 60.0 && ListScore(l1, RrfK, d) == 0.0;
    assert ListScore([d], RrfK, a) == 0.0 && ListScore([d], RrfK, d) == 1.0 / 60.0;
    assert ListScore([d, e], RrfK, a) == 0.0 && ListScore([d, e], RrfK, d) == 1.0 / 60.0;
    assert ListScore(l2, RrfK, a) == 1.0 / 62.0 && ListScore(l2, RrfK, d) == 1.0 / 60.0;
    assert Score(none, RrfK, a) == 0.0 && Score(none, RrfK, d) == 0.0;
    assert [l1][|[l1]| - 1] == l1;
    assert Score([l1], RrfK, a) == Score(none, RrfK, a) + ListScore(l1, RrfK, a);
    assert Score([l1], RrfK, d) == Score(none, RrfK, d) + ListScore(l1, RrfK, d);
    var sa := Score(results, RrfK, a);
    var sd := Score(results, RrfK, d);
    assert sa == 1.0 / 60.0 + 1.0 / 62.0;
    assert sd == 1.0 / 60.0;
    var r := Fuse(results, RrfK);
    FuseScores(results, RrfK);
    forall i, j | 0 <= i < |r| && 0 <= j < |r| && r[i].0 == a && r[j].0 == d ensures i < j {
      if j <= i {
        assert false;
      }
    }
  }

  // ---------------------------------------------------------------------
  // The in-place accumulation of `reciprocal_rank_fusion`

  /** Accumulates 1/(rank + k) into a dictionary whose keys remember their
      insertion order (a `defaultdict(float)`), then sorts its items by
      score, highest first, keeping ties in insertion order. */
  method ReciprocalRankFusion(results: seq<seq<Document>>, k: nat) returns (reranked: seq<Scored>)
    requires k > 0
    ensures reranked == Fuse(results, k)
  {
    var order: seq<Document> := [];          // the dictionary's keys, in insertion order
    var fusedScores: map<Document, real> := map[];
    var i := 0;
    while i < |results|
      invariant 0 <= i <= |results|
      invariant order == Seen(results[..i])
      invariant forall d :: d in fusedScores <==> d in order
      invariant forall d :: d in fusedScores ==> fusedScores[d] == Score(results[..i], k, d)
    {
      var docs := results[i];
      ghost var before := Seen(results[..i]);
      var rank := 0;
      while rank < |docs|
        invariant 0 <= rank <= |docs|
        invariant order == AddKeys(before, docs[..rank])
        invariant forall d :: d in fusedScores <==> d in order
        invariant forall d :: d in fusedScores ==>
          fusedScores[d] == Score(results[..i], k, d) + ListScore(docs[..rank], k, d)
      {
        var doc := docs[rank];
        AccumulateStep(results, i, rank, k);
        if doc !in fusedScores {
          order := order + [doc];
          fusedScores := fusedScores[doc := 0.0];
        }
        fusedScores := fusedScores[doc := fusedScores[doc] + 1.0 / ((rank + k) as real)];
        assert forall d :: d in fusedScores ==>
          fusedScores[d] == Score(results[..i], k, d) + ListScore(docs[..rank + 1], k, d);
        rank := rank + 1;
      }
      NextList(results, i, k);
      i := i + 1;
    }
    assert results[..i] == results;
    var items := seq(|order|, j requires 0 <= j < |order| => (order[j], fusedScores[order[j]]));
    ItemsAreScored(items, order, fusedScores, results, k);
    reranked := SortByScore(items);
  }

  /** `fused_scores.items()`: each key in insertion order with its score. */
  lemma ItemsAreScored(items: seq<Scored>, order: seq<Document>, scores: map<Document, real>,
                       results: seq<seq<Document>>, k: nat)
    requires k > 0 && order == Seen(results)
    requires forall d :: d in scores <==> d in order
    requires forall d :: d in scores ==> scores[d] == Score(results, k, d)
    requires |items| == |order| && forall j :: 0 <= j < |order| ==> items[j] == (order[j], scores[order[j]])
    ensures items == ScoredKeys(Seen(results), results, k)
  {
  }

  /** One step of the inner loop: scanning `results[i][rank]` adds it as a
      key if it is new (exactly when its score so far is 0) and adds
      1/(rank + k) to its score only. */
  lemma AccumulateStep(results: seq<seq<Document>>, i: nat, rank: nat, k: nat)
    requires k > 0 && i < |results| && rank < |results[i]|
    ensures var docs, doc, before := results[i], results[i][rank], Seen(results[..i]);
      && AddKeys(before, docs[..rank + 1]) == AddKey(AddKeys(before, docs[..rank]), doc)
      && (doc !in AddKeys(before, docs[..rank]) <==> Score(results[..i], k, doc) + ListScore(docs[..rank], k, doc) == 0.0)
      && (forall d :: ListScore(docs[..rank + 1], k, d) ==
            ListScore(docs[..rank], k, d) + (if d == doc then 1.0 / ((rank + k) as real) else 0.0))
  {
    var docs, doc, before := results[i], results[i][rank], Seen(results[..i]);
    assert docs[..rank + 1][..rank] == docs[..rank];
    SeenProps(results[..i]);
    AddKeysProps(before, docs[..rank]);
    ScoreSign(results[..i], k, doc);
    ListScoreSign(docs[..rank], k, doc);
  }

  /** One step of the outer loop: list `i` has been scanned completely. */
  lemma NextList(results: seq<seq<Document>>, i: nat, k: nat)
    requires k > 0 && i < |results|
    ensures Seen(results[..i + 1]) == AddKeys(Seen(results[..i]), results[i][..|results[i]|])
    ensures forall d :: (Score(results[..i + 1], k, d) ==
      Score(results[..i], k, d) + ListScore(results[i][..|results[i]|], k, d))
  {
    assert results[..i + 1][..i] == results[..i];
    assert results[i][..|results[i]|] == results[i];
  }

  // ---------------------------------------------------------------------
  // Two-stage retrieval over an abstract vector store

  datatype Collection = Summaries | Details

  /** `None`, or `{"doc_id": {"$in": ids}}`. */
  datatype Filter = Unfiltered | DocIdIn(ids: set<string>)

  /** One `similarity_search(query, k, filter)` call on one collection. */
  datatype Request = Request(collection: Collection, query: string, k: nat, filter: Filter)

  /** The vector store: answers a request with an ordered list of documents,
      or raises. */
  type Store = Request -> Result<seq<Document>>

  const SummaryK: nat := 3
  const DetailK: nat := 10

  /** The text of the `KeyError` raised by `metadata["doc_id"]` on a summary without one. */
  const MissingDocIdError := "'doc_id'"

  predicate HasDocId(d: Document)
  {
    DocIdKey in d.metadata
  }

  predicate AllHaveDocId(hits: seq<Document>)
  {
    forall i :: 0 <= i < |hits| ==> HasDocId(hits[i])
  }

  function HitIds(hits: seq<Document>): set<string>
    requires AllHaveDocId(hits)
  {
    set i | 0 <= i < |hits| :: hits[i].metadata[DocIdKey]
  }

  /** `{doc.metadata["doc_id"] for doc in summary_docs}`: raises when a hit
      has no `doc_id`. */
  function DocIds(hits: seq<Document>): Result<set<string>>
  {
    if AllHaveDocId(hits) then Ok(HitIds(hits)) else Err(MissingDocIdError)
  }

  /** The requests the retriever made, and what it returned or raised. */
  datatype Retrieval = Retrieval(requests: seq<Request>, outcome: Result<seq<Document>>)

  /** `health_retriever(query)`: the top 3 summaries give the candidate
      document ids; the top 10 detail chunks among those documents are the
      result. */
  function HealthRetriever(search: Store, query: string): (r: Retrieval)
    ensures 1 <= |r.requests| <= 2
    ensures r.requests[0] == Request(Summaries, query, SummaryK, Unfiltered)
    ensures |r.requests| == 1 ==> r.outcome.Err?
    ensures |r.requests| == 2 ==>
      r.requests[1].collection == Details && r.requests[1].filter.DocIdIn? && r.outcome == search(r.requests[1])
  {
    var summaryRequest := Request(Summaries, query, SummaryK, Unfiltered);
    match search(summaryRequest)
    case Err(e) => Retrieval([summaryRequest], Err(e))
    case Ok(hits) =>
      match DocIds(hits)
      case Err(e) => Retrieval([summaryRequest], Err(e))
      case Ok(ids) =>
        var detailRequest := Request(Details, query, DetailK, DocIdIn(ids));
        Retrieval([summaryRequest, detailRequest], search(detailRequest))
  }

  /** A store that never returns more than it was asked for. */
  ghost predicate Bounded(search: Store)
  {
    forall r :: search(r).Ok? ==> |search(r).value| <= r.k
  }

  predicate Matches(f: Filter, d: Document)
  {
    match f
    case Unfiltered => true
    case DocIdIn(ids) => DocIdKey in d.metadata && d.metadata[DocIdKey] in ids
  }

  predicate AllMatch(f: Filter, docs: seq<Document>)
    decreases |docs|
  {
    docs == [] || (Matches(f, docs[0]) && AllMatch(f, docs[1..]))
  }

  lemma {:induction false} AllMatchAt(f: Filter, docs: seq<Document>, i: nat)
    requires AllMatch(f, docs) && i < |docs|
    ensures Matches(f, docs[i])
    decreases i
  {
    if i > 0 {
      AllMatchAt(f, docs[1..], i - 1);
    }
  }

  /** A store whose results satisfy the request's filter. */
  ghost predicate HonoursFilter(search: Store)
  {
    forall r :: search(r).Ok? ==> AllMatch(r.filter, search(r).value)
  }

  /** The retriever first asks the summaries for 3 unfiltered hits; its only
      other request asks the details for at most 10 chunks, always filtered
      to the ids carried by those hits, so it never searches the details
      unfiltered. */
  lemma RetrieverRequests(search: Store, query: string)
    ensures var r := HealthRetriever(search, query);
      && 1 <= |r.requests| <= 2
      && r.requests[0] == Request(Summaries, query, SummaryK, Unfiltered)
      && (|r.requests| == 2 <==> search(r.requests[0]).Ok? && DocIds(search(r.requests[0]).value).Ok?)
      && (|r.requests| == 2 ==>
            && r.requests[1].collection == Details
            && r.requests[1].query == query
            && r.requests[1].k == DetailK
            && r.requests[1].filter.DocIdIn?
            && r.requests[1].filter.ids == DocIds(search(r.requests[0]).value).value)
      && (|r.requests| == 1 ==> r.outcome.Err?)
  {
  }

  /** The candidate ids are the `doc_id`s of the hits: no id from elsewhere,
      each hit's id included, and no more ids than hits. */
  lemma DocIdsOfHits(hits: seq<Document>)
    requires DocIds(hits).Ok?
    ensures forall id :: id in DocIds(hits).value <==> exists i :: 0 <= i < |hits| && hits[i].metadata[DocIdKey] == id
    ensures |DocIds(hits).value| <= |hits|
  {
    IdSetSize(hits);
  }

  lemma {:induction false} IdSetSize(hits: seq<Document>)
    requires AllHaveDocId(hits)
    ensures |HitIds(hits)| <= |hits|
    decreases |hits|
  {
    if hits != [] {
      var ids := HitIds(hits);
      var init := hits[..|hits| - 1];
      assert AllHaveDocId(init) by { forall i | 0 <= i < |init| ensures HasDocId(init[i]) { assert init[i] == hits[i]; } }
      var initIds := HitIds(init);
      IdSetSize(init);
      var last := hits[|hits| - 1].metadata[DocIdKey];
      assert ids == initIds + {last} by {
        forall id | id in ids ensures id in initIds + {last} {
          var i :| 0 <= i < |hits| && hits[i].metadata[DocIdKey] == id;
          if i < |hits| - 1 { assert init[i] == hits[i]; }
        }
        forall id | id in initIds ensures id in ids {
          var i :| 0 <= i < |init| && init[i].metadata[DocIdKey] == id;
          assert init[i] == hits[i];
        }
      }
      assert |initIds + {last}| <= |initIds| + 1;
    }
  }

  /** Against a bounded store the retriever narrows to at most 3 documents
      and returns at most 10 chunks. */
  lemma RetrieverBounds(search: Store, query: string)
    requires Bounded(search)
    ensures var summary := search(Request(Summaries, query, SummaryK, Unfiltered));
      summary.Ok? && DocIds(summary.value).Ok? ==> |DocIds(summary.value).value| <= SummaryK
    ensures HealthRetriever(search, query).outcome.Ok? ==> |HealthRetriever(search, query).outcome.value| <= DetailK
  {
    var summary := search(Request(Summaries, query, SummaryK, Unfiltered));
    if summary.Ok? && DocIds(summary.value).Ok? {
      DocIdsOfHits(summary.value);
    }
  }

  /** Against a store that honours filters, every returned chunk belongs to
      a document whose summary was one of the top-3 hits; with no summary
      hits the result is empty. */
  lemma RetrieverTraceable(search: Store, query: string)
    requires HonoursFilter(search)
    ensures var summary := search(Request(Summaries, query, SummaryK, Unfiltered));
      var r := HealthRetriever(search, query);
      r.outcome.Ok? ==>
        && summary.Ok?
        && (summary.value == [] ==> r.outcome.value == [])
        && forall j :: 0 <= j < |r.outcome.value| ==>
             DocIdKey in r.outcome.value[j].metadata &&
             exists i :: 0 <= i < |summary.value| && DocIdKey in summary.value[i].metadata &&
               summary.value[i].metadata[DocIdKey] == r.outcome.value[j].metadata[DocIdKey]
  {
    var summary := search(Request(Summaries, query, SummaryK, Unfiltered));
    var r := HealthRetriever(search, query);
    if r.outcome.Ok? {
      var ids := DocIds(summary.value).value;
      var detailRequest := Request(Details, query, DetailK, DocIdIn(ids));
      DocIdsOfHits(summary.value);
      forall j | 0 <= j < |r.outcome.value|
        ensures DocIdKey in r.outcome.value[j].metadata
        ensures exists i :: (0 <= i < |summary.value| && DocIdKey in summary.value[i].metadata &&
               summary.value[i].metadata[DocIdKey] == r.outcome.value[j].metadata[DocIdKey])
      {
        AllMatchAt(detailRequest.filter, search(detailRequest).value, j);
      }
      assert AllMatch(detailRequest.filter, search(detailRequest).value);
    }
  }

  // ---------------------------------------------------------------------
  // Query expansion and the tool facade

  /** The `lambda x: x.split("\n")` step applied to the model's text, or the
      model's failure passed on. */
  function GenerateQueries(generated: Result<string>): (q: Result<seq<string>>)
    ensures q.Ok? <==> generated.Ok?
    ensures generated.Err? ==> q.error == generated.error
    ensures q.Ok? ==> |q.value| == Count(generated.value, '\n') + 1
  {
    match generated
    case Ok(text) => Ok(Split(text, '\n'))
    case Err(e) => Err(e)
  }

  /** The split is not validated: it yields one query per line, however many
      lines the model wrote (blank ones included), and nothing is lost. */
  lemma QueriesAreLines(text: string)
    ensures GenerateQueries(Ok(text)).Ok?
    ensures |GenerateQueries(Ok(text)).value| == Count(text, '\n') + 1
    ensures Join(GenerateQueries(Ok(text)).value, "\n") == text
    ensures NoneContains(GenerateQueries(Ok(text)).value, '\n')
  {
    SplitJoin(text, '\n');
  }

  /** `retriever.map()`: each query retrieved in turn; the first failure is raised. */
  function RetrieveAll(search: Store, queries: seq<string>): (r: Result<seq<seq<Document>>>)
    ensures r.Ok? ==> |r.value| == |queries|
    ensures r.Err? ==> queries != []
    decreases |queries|
  {
    if queries == [] then Ok([])
    else match HealthRetriever(search, queries[0]).outcome
      case Err(e) => Err(e)
      case Ok(docs) =>
        match RetrieveAll(search, queries[1..])
        case Err(e) => Err(e)
        case Ok(rest) => Ok([docs] + rest)
  }

  lemma {:induction false} RetrieveAllProps(search: Store, queries: seq<string>)
    ensures RetrieveAll(search, queries).Ok? <==>
      forall i :: 0 <= i < |queries| ==> HealthRetriever(search, queries[i]).outcome.Ok?
    ensures RetrieveAll(search, queries).Ok? ==>
      |RetrieveAll(search, queries).value| == |queries| &&
      forall i :: 0 <= i < |queries| ==>
        RetrieveAll(search, queries).value[i] == HealthRetriever(search, queries[i]).outcome.value
    decreases |queries|
  {
    if queries != [] {
      RetrieveAllProps(search, queries[1..]);
      assert forall i :: 1 <= i < |queries| ==> queries[1..][i - 1] == queries[i];
      if !HealthRetriever(search, queries[0]).outcome.Ok? {
      } else if RetrieveAll(search, queries[1..]).Ok? {
        var rest := RetrieveAll(search, queries[1..]).value;
        assert forall i :: 1 <= i < |queries| ==> ([HealthRetriever(search, queries[0]).outcome.value] + rest)[i] == rest[i - 1];
      } else {
        var i :| 0 <= i < |queries[1..]| && !HealthRetriever(search, queries[1..][i]).outcome.Ok?;
        assert queries[1..][i] == queries[i + 1];
      }
    }
  }

  /** The failure `retriever.map()` raises is the one of the first query
      whose retrieval failed: every query before it succeeded. */
  lemma {:induction false} RetrieveAllFirstError(search: Store, queries: seq<string>)
    ensures RetrieveAll(search, queries).Err? ==>
      exists i :: 0 <= i < |queries| &&
        (forall j :: 0 <= j < i ==> HealthRetriever(search, queries[j]).outcome.Ok?) &&
        HealthRetriever(search, queries[i]).outcome.Err? &&
        RetrieveAll(search, queries).error == HealthRetriever(search, queries[i]).outcome.error
    decreases |queries|
  {
    if queries != [] && RetrieveAll(search, queries).Err? && HealthRetriever(search, queries[0]).outcome.Ok? {
      var tail := queries[1..];
      RetrieveAllFirstError(search, tail);
      var i :| 0 <= i < |tail| &&
        (forall j :: 0 <= j < i ==> HealthRetriever(search, tail[j]).outcome.Ok?) &&
        HealthRetriever(search, tail[i]).outcome.Err? &&
        RetrieveAll(search, tail).error == HealthRetriever(search, tail[i]).outcome.error;
      assert tail[i] == queries[i + 1];
      assert forall j :: 1 <= j < i + 1 ==> tail[j - 1] == queries[j];
    }
  }

  /** What the retrieval tool hands back to the agent. */
  datatype ToolOutput = Ranked(ranked: seq<Scored>) | ErrorText(message: string)

  const ToolErrorPrefix := "Lỗi khi truy xuất tài liệu: "

  /** `run_retrieval_only`: expansion, retrieval of every query, fusion with
      the default k; any exception becomes an error text. */
  function RunRetrievalOnly(generated: Result<string>, search: Store): (out: ToolOutput)
    ensures out.Ranked? ==> generated.Ok? && NonIncreasing(out.ranked)
    ensures out.ErrorText? ==> StartsWith(out.message, ToolErrorPrefix)
  {
    match GenerateQueries(generated)
    case Err(e) => ErrorText(ToolErrorPrefix + e)
    case Ok(queries) =>
      match RetrieveAll(search, queries)
      case Err(e) => ErrorText(ToolErrorPrefix + e)
      case Ok(lists) => Ranked(Fuse(lists, RrfK))
  }

  /** The facade never raises: it returns the fused ranking exactly when the
      expansion and every retrieval succeeded, and otherwise the error
      prefix followed by the failure's text. */
  lemma FacadeTotal(generated: Result<string>, search: Store)
    ensures var out := RunRetrievalOnly(generated, search);
      && (out.Ranked? <==>
            generated.Ok? &&
            forall q :: q in Split(generated.value, '\n') ==> HealthRetriever(search, q).outcome.Ok?)
      && (generated.Err? ==> out == ErrorText(ToolErrorPrefix + generated.error))
      && (generated.Ok? && out.ErrorText? ==>
            var qs := Split(generated.value, '\n');
            exists i :: 0 <= i < |qs| &&
              (forall j :: 0 <= j < i ==> HealthRetriever(search, qs[j]).outcome.Ok?) &&
              HealthRetriever(search, qs[i]).outcome.Err? &&
              out.message == ToolErrorPrefix + HealthRetriever(search, qs[i]).outcome.error)
      && (out.Ranked? ==> out.ranked == Fuse(RetrieveAll(search, Split(generated.value, '\n')).value, RrfK))
  {
    if generated.Ok? {
      RetrieveAllProps(search, Split(generated.value, '\n'));
      RetrieveAllFirstError(search, Split(generated.value, '\n'));
    }
  }

  /** `d` carries the `doc_id` of one of the top-3 summary hits of one of `queries`. */
  ghost predicate TracedTo(search: Store, queries: seq<string>, d: Document)
  {
    exists q :: q in queries &&
      var summary := search(Request(Summaries, q, SummaryK, Unfiltered));
      && summary.Ok?
      && DocIdKey in d.metadata
      && exists i :: 0 <= i < |summary.value| && DocIdKey in summary.value[i].metadata &&
           summary.value[i].metadata[DocIdKey] == d.metadata[DocIdKey]
  }

  /** End to end, against a store that honours filters: every ranked chunk
      belongs to a document whose summary was a top-3 hit for one of the
      expanded queries. */
  lemma FacadeTraceable(generated: Result<string>, search: Store)
    requires HonoursFilter(search)
    ensures var out := RunRetrievalOnly(generated, search);
      out.Ranked? ==>
        forall j :: 0 <= j < |out.ranked| ==> TracedTo(search, Split(generated.value, '\n'), out.ranked[j].0)
  {
    var out := RunRetrievalOnly(generated, search);
    if out.Ranked? {
      var queries := Split(generated.value, '\n');
      var lists := RetrieveAll(search, queries).value;
      RetrieveAllProps(search, queries);
      FuseEntries(lists, RrfK);
      forall j | 0 <= j < |out.ranked|
        ensures TracedTo(search, queries, out.ranked[j].0)
      {
        var d := out.ranked[j].0;
        assert HasEntry(out.ranked, d);
        var n :| 0 <= n < |lists| && d in lists[n];
        var m :| 0 <= m < |lists[n]| && lists[n][m] == d;
        RetrieverTraceable(search, queries[n]);
        assert queries[n] in queries;
      }
    }
  }
}
