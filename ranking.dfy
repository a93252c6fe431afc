/**
 * The specification of `SearchEngine.search`: scoring every index entry that
 * has a vector of non-zero norm, the stable sort by descending score, and the
 * cut to the first 15. The score (numpy's cosine) is a parameter.
 */
module Ranking {
  import opened Wrappers
  import opened DocIndex
  import opened Providers

  /** One search result, the tuple `(score, path, data)`. */
  datatype Hit = Hit(score: real, path: string, record: Record)

  /** `np.linalg.norm(v) == 0`: every component is zero (an empty vector too). */
  predicate IsZero(v: Vector) {
    forall i :: 0 <= i < |v| ==> v[i] == 0.0
  }

  /** The entry has a "vector" key whose norm is positive. */
  predicate Scorable(d: Record) {
    d.vector.Some? && !IsZero(d.vector.value)
  }

  /** What one entry adds to `results`. */
  function HitFor(e: Entry, q: Vector, score: (Vector, Vector) -> real): seq<Hit> {
    if Scorable(e.1) then [Hit(score(q, e.1.vector.value), e.0, e.1)] else []
  }

  /** `results` after the loop over `index.items()`, in iteration order. */
  function Candidates(idx: Index, q: Vector, score: (Vector, Vector) -> real): seq<Hit>
    decreases |idx|
  {
    if idx == [] then []
    else Candidates(idx[..|idx| - 1], q, score) + HitFor(idx[|idx| - 1], q, score)
  }

  predicate SortedByScore(s: seq<Hit>) {
    forall a, b :: 0 <= a < b < |s| ==> s[a].score >= s[b].score
  }

  /** Inserts `x` in front of the first element whose score is not above its own. */
  function Insert(x: Hit, s: seq<Hit>): (r: seq<Hit>)
    ensures multiset(r) == multiset(s) + multiset{x}
    ensures |r| == |s| + 1
  {
    if s == [] then [x]
    else if x.score >= s[0].score then [x] + s
    else
      assert s == [s[0]] + s[1..];
      [s[0]] + Insert(x, s[1..])
  }

  lemma {:induction false} InsertBounded(x: Hit, s: seq<Hit>, m: real)
    requires x.score <= m
    requires forall b :: 0 <= b < |s| ==> s[b].score <= m
    ensures forall b :: 0 <= b < |Insert(x, s)| ==> Insert(x, s)[b].score <= m
    decreases |s|
  {
    if s != [] && x.score < s[0].score {
      InsertBounded(x, s[1..], m);
      var r := Insert(x, s);
      forall b | 0 <= b < |r| ensures r[b].score <= m {
        if b > 0 {
          assert r[b] == Insert(x, s[1..])[b - 1];
        }
      }
    }
  }

  /** A head no lower than every element of a sorted tail keeps it sorted. */
  lemma SortedCons(h: Hit, t: seq<Hit>)
    requires SortedByScore(t)
    requires forall b :: 0 <= b < |t| ==> t[b].score <= h.score
    ensures SortedByScore([h] + t)
  {
    var r := [h] + t;
    forall a, b | 0 <= a < b < |r| ensures r[a].score >= r[b].score {
      assert r[b] == t[b - 1];
      if a > 0 {
        assert r[a] == t[a - 1];
      }
    }
  }

  lemma {:induction false} InsertSorted(x: Hit, s: seq<Hit>)
    requires SortedByScore(s)
    ensures SortedByScore(Insert(x, s))
    decreases |s|
  {
    if s == [] {
    } else if x.score >= s[0].score {
      forall b | 0 <= b < |s| ensures s[b].score <= x.score {
        if b > 0 {
          assert s[0].score >= s[b].score;
        }
      }
      SortedCons(x, s);
    } else {
      var t := s[1..];
      assert SortedByScore(t) by {
        forall a, b | 0 <= a < b < |t| ensures t[a].score >= t[b].score {
          assert t[a] == s[a + 1] && t[b] == s[b + 1];
        }
      }
      forall b | 0 <= b < |t| ensures t[b].score <= s[0].score {
        assert t[b] == s[b + 1];
      }
      InsertSorted(x, t);
      InsertBounded(x, t, s[0].score);
      SortedCons(s[0], Insert(x, t));
    }
  }

  /** `list.sort(key=score, reverse=True)`: a stable sort, most relevant first. */
  function SortDesc(s: seq<Hit>): (r: seq<Hit>)
    ensures multiset(r) == multiset(s)
    ensures |r| == |s|
  {
    if s == [] then []
    else
      assert s == [s[0]] + s[1..];
      Insert(s[0], SortDesc(s[1..]))
  }

  /** The sort orders by descending score. */
  lemma {:induction false} SortDescSorted(s: seq<Hit>)
    ensures SortedByScore(SortDesc(s))
    decreases |s|
  {
    if s != [] {
      SortDescSorted(s[1..]);
      InsertSorted(s[0], SortDesc(s[1..]));
    }
  }

  /** `results[:15]`. */
  function Take(s: seq<Hit>, n: nat): seq<Hit> {
    if |s| <= n then s else s[..n]
  }

  /** The kept results are the first ones of the list. */
  lemma TakeAt(s: seq<Hit>, n: nat, a: nat)
    requires a < |Take(s, n)|
    ensures a < |s| && Take(s, n)[a] == s[a]
  {
  }

  /** The ranking for a usable query vector. */
  function Rank(idx: Index, q: Vector, score: (Vector, Vector) -> real): seq<Hit> {
    Take(SortDesc(Candidates(idx, q, score)), 15)
  }

  /** The whole of `search(query)`. */
  function SearchSpec(idx: Index, query: string, embed: string -> Option<Vector>,
                      score: (Vector, Vector) -> real): seq<Hit>
  {
    var qv := Embed(query, embed);
    if qv.None? || qv.value == [] || IsZero(qv.value) then []
    else Rank(idx, qv.value, score)
  }

  /** `a` comes before `b`: a higher score, or the same score and a smaller `key`. */
  ghost predicate Above(a: Hit, b: Hit, key: Hit -> int) {
    a.score > b.score || (a.score == b.score && key(a) < key(b))
  }

  /** Ordered first by descending score, then by ascending `key`. */
  ghost predicate LexOrdered(s: seq<Hit>, key: Hit -> int) {
    forall a, b :: 0 <= a < b < |s| ==> Above(s[a], s[b], key)
  }

  lemma {:induction false} InsertAbove(top: Hit, x: Hit, s: seq<Hit>, key: Hit -> int)
    requires Above(top, x, key)
    requires forall b :: 0 <= b < |s| ==> Above(top, s[b], key)
    ensures forall b :: 0 <= b < |Insert(x, s)| ==> Above(top, Insert(x, s)[b], key)
    decreases |s|
  {
    if s != [] && x.score < s[0].score {
      InsertAbove(top, x, s[1..], key);
      var r := Insert(x, s);
      forall b | 0 <= b < |r| ensures Above(top, r[b], key) {
        if b > 0 {
          assert r[b] == Insert(x, s[1..])[b - 1];
        }
      }
    }
  }

  lemma {:induction false} InsertLex(x: Hit, s: seq<Hit>, key: Hit -> int)
    requires LexOrdered(s, key)
    requires forall y :: y in s ==> key(x) < key(y)
    ensures LexOrdered(Insert(x, s), key)
    decreases |s|
  {
    if s == [] {
    } else if x.score >= s[0].score {
      var r := Insert(x, s);
      assert r == [x] + s;
      forall a, b | 0 <= a < b < |r| ensures Above(r[a], r[b], key) {
        assert r[b] == s[b - 1];
        if a > 0 {
          assert r[a] == s[a - 1];
        } else {
          assert s[b - 1] in s;
          if b > 1 {
            assert Above(s[0], s[b - 1], key);
          }
        }
      }
    } else {
      var t := s[1..];
      assert LexOrdered(t, key) by {
        forall a, b | 0 <= a < b < |t| ensures Above(t[a], t[b], key) {
          assert t[a] == s[a + 1] && t[b] == s[b + 1];
        }
      }
      assert forall y :: y in t ==> key(x) < key(y) by {
        forall y | y in t ensures key(x) < key(y) {
          assert y in s;
        }
      }
      InsertLex(x, t, key);
      assert forall b :: 0 <= b < |t| ==> Above(s[0], t[b], key) by {
        forall b | 0 <= b < |t| ensures Above(s[0], t[b], key) {
          assert t[b] == s[b + 1];
        }
      }
      InsertAbove(s[0], x, t, key);
      var rest := Insert(x, t);
      var r := Insert(x, s);
      assert r == [s[0]] + rest;
      forall a, b | 0 <= a < b < |r| ensures Above(r[a], r[b], key) {
        assert r[b] == rest[b - 1];
        if a > 0 {
          assert r[a] == rest[a - 1];
        }
      }
    }
  }

  /** Stability: when the input is in increasing `key` order, equal scores
      keep that order in the sorted list. */
  lemma {:induction false} SortDescStable(s: seq<Hit>, key: Hit -> int)
    requires forall a, b :: 0 <= a < b < |s| ==> key(s[a]) < key(s[b])
    ensures LexOrdered(SortDesc(s), key)
    decreases |s|
  {
    if s != [] {
      var t := s[1..];
      assert forall a, b :: 0 <= a < b < |t| ==> key(t[a]) < key(t[b]) by {
        forall a, b | 0 <= a < b < |t| ensures key(t[a]) < key(t[b]) {
          assert t[a] == s[a + 1] && t[b] == s[b + 1];
        }
      }
      SortDescStable(t, key);
      forall y | y in SortDesc(t) ensures key(s[0]) < key(y) {
        assert y in multiset(SortDesc(t));
        assert y in t;
        var j :| 0 <= j < |t| && t[j] == y;
        assert s[j + 1] == y;
      }
      InsertLex(s[0], SortDesc(t), key);
    }
  }

  /** Every candidate is a scorable index entry scored against the query. */
  lemma {:induction false} CandidatesFromIndex(idx: Index, q: Vector, score: (Vector, Vector) -> real)
    requires UniqueKeys(idx)
    ensures forall a :: 0 <= a < |Candidates(idx, q, score)| ==>
      CameFrom(idx, q, score, Candidates(idx, q, score)[a])
    decreases |idx|
  {
    if idx != [] {
      var init := idx[..|idx| - 1];
      var e := idx[|idx| - 1];
      assert UniqueKeys(init);
      CandidatesFromIndex(init, q, score);
      var ci := Candidates(init, q, score);
      var c := Candidates(idx, q, score);
      assert c == ci + HitFor(e, q, score);
      forall a | 0 <= a < |c| ensures CameFrom(idx, q, score, c[a]) {
        if a < |ci| {
          assert c[a] == ci[a];
          var p := PosOf(init, ci[a].path);
          assert idx[p] == init[p];
          LookupAt(idx, p);
        } else {
          LookupAt(idx, |idx| - 1);
        }
      }
    }
  }

  /** `h` is the hit an entry of `idx` produces: the entry at the first
      position of its path, scorable, scored against `q`. */
  ghost predicate CameFrom(idx: Index, q: Vector, score: (Vector, Vector) -> real, h: Hit) {
    && PosOf(idx, h.path) < |idx|
    && idx[PosOf(idx, h.path)] == (h.path, h.record)
    && Scorable(h.record)
    && h.score == score(q, h.record.vector.value)
  }

  /** Candidates appear in index order. */
  lemma {:induction false} CandidatesInIndexOrder(idx: Index, q: Vector, score: (Vector, Vector) -> real)
    requires UniqueKeys(idx)
    ensures forall a, b :: 0 <= a < b < |Candidates(idx, q, score)| ==>
      PosOf(idx, Candidates(idx, q, score)[a].path) < PosOf(idx, Candidates(idx, q, score)[b].path)
    decreases |idx|
  {
    if idx != [] {
      var init := idx[..|idx| - 1];
      var e := idx[|idx| - 1];
      assert UniqueKeys(init);
      CandidatesInIndexOrder(init, q, score);
      CandidatesFromIndex(init, q, score);
      var ci := Candidates(init, q, score);
      var c := Candidates(idx, q, score);
      assert c == ci + HitFor(e, q, score);
      forall a | 0 <= a < |ci| ensures PosOf(idx, ci[a].path) == PosOf(init, ci[a].path) {
        assert CameFrom(init, q, score, ci[a]);
        var p := PosOf(init, ci[a].path);
        assert idx[p] == init[p];
        LookupAt(idx, p);
      }
      LookupAt(idx, |idx| - 1);
      forall a, b | 0 <= a < b < |c| ensures PosOf(idx, c[a].path) < PosOf(idx, c[b].path) {
        assert c[a] == ci[a];
        if b < |ci| {
          assert c[b] == ci[b];
        } else {
          assert c[b].path == e.0;
          assert CameFrom(init, q, score, ci[a]);
        }
      }
    }
  }

  /** Every scorable index entry is a candidate. */
  lemma {:induction false} CandidatesComplete(idx: Index, q: Vector, score: (Vector, Vector) -> real, i: nat)
    requires i < |idx| && Scorable(idx[i].1)
    ensures Hit(score(q, idx[i].1.vector.value), idx[i].0, idx[i].1) in Candidates(idx, q, score)
    decreases |idx|
  {
    if i < |idx| - 1 {
      var init := idx[..|idx| - 1];
      assert init[i] == idx[i];
      CandidatesComplete(init, q, score, i);
    }
  }

  /** The ranking holds at most 15 results, with non-increasing scores. */
  lemma RankSorted(idx: Index, q: Vector, score: (Vector, Vector) -> real)
    ensures |Rank(idx, q, score)| <= 15
    ensures SortedByScore(Rank(idx, q, score))
  {
    var sorted := SortDesc(Candidates(idx, q, score));
    SortDescSorted(Candidates(idx, q, score));
    var r := Take(sorted, 15);
    forall a, b | 0 <= a < b < |r| ensures r[a].score >= r[b].score {
      assert r[a] == sorted[a] && r[b] == sorted[b];
    }
  }

  /** Every result is `(score, path, index[path])` for an indexed path whose
      vector has a non-zero norm. */
  lemma RankSound(idx: Index, q: Vector, score: (Vector, Vector) -> real)
    requires UniqueKeys(idx)
    ensures forall h :: h in Rank(idx, q, score) ==>
      && Lookup(idx, h.path) == Some(h.record)
      && Scorable(h.record)
      && h.score == score(q, h.record.vector.value)
  {
    var c := Candidates(idx, q, score);
    CandidatesFromIndex(idx, q, score);
    var sorted := SortDesc(c);
    var r := Take(sorted, 15);
    forall h | h in r
      ensures Lookup(idx, h.path) == Some(h.record)
      ensures Scorable(h.record) && h.score == score(q, h.record.vector.value)
    {
      var a :| 0 <= a < |r| && r[a] == h;
      assert r[a] == sorted[a];
      assert h in multiset(c);
      var j :| 0 <= j < |c| && c[j] == h;
      LookupAt(idx, PosOf(idx, h.path));
    }
  }

  /** Equal scores keep index order, and no path appears twice. */
  lemma RankOrder(idx: Index, q: Vector, score: (Vector, Vector) -> real)
    requires UniqueKeys(idx)
    ensures forall a, b :: 0 <= a < b < |Rank(idx, q, score)| && Rank(idx, q, score)[a].score == Rank(idx, q, score)[b].score ==>
      PosOf(idx, Rank(idx, q, score)[a].path) < PosOf(idx, Rank(idx, q, score)[b].path)
    ensures forall a, b :: 0 <= a < b < |Rank(idx, q, score)| ==> Rank(idx, q, score)[a].path != Rank(idx, q, score)[b].path
  {
    var c := Candidates(idx, q, score);
    CandidatesInIndexOrder(idx, q, score);
    CandidatesFromIndex(idx, q, score);
    var key := (h: Hit) => PosOf(idx, h.path);
    SortDescStable(c, key);
    var sorted := SortDesc(c);
    var r := Take(sorted, 15);
    forall a, b | 0 <= a < b < |r| ensures Above(r[a], r[b], key) && r[a].path != r[b].path {
      TakeAt(sorted, 15, a);
      TakeAt(sorted, 15, b);
      assert Above(r[a], r[b], key);
      assert r[a] in multiset(c) && r[b] in multiset(c);
      assert CameFrom(idx, q, score, r[a]) && CameFrom(idx, q, score, r[b]);
    }
  }

  /** Top-K completeness: a scorable entry that is not among the results is
      outranked by 15 results, each scoring at least as high. */
  lemma RankComplete(idx: Index, q: Vector, score: (Vector, Vector) -> real, i: nat)
    requires i < |idx| && Scorable(idx[i].1)
    ensures var r := Rank(idx, q, score); var h := Hit(score(q, idx[i].1.vector.value), idx[i].0, idx[i].1);
      h in r || (|r| == 15 && forall a :: 0 <= a < |r| ==> r[a].score >= h.score)
  {
    var c := Candidates(idx, q, score);
    var h := Hit(score(q, idx[i].1.vector.value), idx[i].0, idx[i].1);
    CandidatesComplete(idx, q, score, i);
    SortDescSorted(c);
    var sorted := SortDesc(c);
    assert h in multiset(sorted);
    var k :| 0 <= k < |sorted| && sorted[k] == h;
    var r := Take(sorted, 15);
    if |sorted| <= 15 {
      assert r == sorted;
    } else {
      assert r == sorted[..15];
      if k < 15 {
        assert r[k] == h;
      } else {
        forall a | 0 <= a < |r| ensures r[a].score >= h.score {
          assert r[a] == sorted[a];
        }
      }
    }
  }

  /** A failed, empty or zero-norm query embedding yields no results. */
  lemma SearchRejectsQuery(idx: Index, query: string, embed: string -> Option<Vector>,
                           score: (Vector, Vector) -> real)
    requires var qv := Embed(query, embed); qv.None? || IsZero(qv.value)
    ensures SearchSpec(idx, query, embed, score) == []
  {
  }
}
