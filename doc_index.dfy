/**
 * The in-memory index of `SearchEngine` (`self.index`): a Python dict from a
 * file path to its record. A dict iterates in insertion order, re-assigning an
 * existing key keeps its position and a new key is appended, so the index is
 * modelled as an association list whose keys are unique.
 */
module DocIndex {
  import opened Wrappers

  /** An embedding vector (a JSON list of floats). */
  type Vector = seq<real>

  /** The record stored per path: `{mtime, filename, summary, vector}`; a record
      loaded from an older store may lack its "vector" key. */
  datatype Record = Record(mtime: real, filename: string, summary: string, vector: Option<Vector>)

  type Entry = (string, Record)

  type Index = seq<Entry>

  /** No path occurs twice: the index is a dictionary. */
  ghost predicate UniqueKeys(idx: Index) {
    forall i, j :: 0 <= i < j < |idx| ==> idx[i].0 != idx[j].0
  }

  ghost predicate HasKey(idx: Index, k: string) {
    exists i :: 0 <= i < |idx| && idx[i].0 == k
  }

  /** `index.get(k)`: the record of the first entry with key `k`, if any. */
  function Lookup(idx: Index, k: string): (r: Option<Record>)
    ensures r.None? <==> !HasKey(idx, k)
  {
    if idx == [] then None
    else if idx[0].0 == k then Some(idx[0].1)
    else Lookup(idx[1..], k)
  }

  /** Position of the first entry with key `k`, or `|idx|` when there is none. */
  function PosOf(idx: Index, k: string): (p: nat)
    ensures p <= |idx|
    ensures p < |idx| ==> idx[p].0 == k
    ensures forall i :: 0 <= i < p ==> idx[i].0 != k
  {
    if idx == [] then 0
    else if idx[0].0 == k then 0
    else 1 + PosOf(idx[1..], k)
  }

  /** `index[k] = v`: the entry for `k` is replaced where it stands, or a new
      entry is appended; every other entry keeps its value and its position. */
  function Put(idx: Index, k: string, v: Record): (r: Index)
    ensures |r| == if HasKey(idx, k) then |idx| else |idx| + 1
    ensures forall i :: 0 <= i < |idx| ==> r[i].0 == idx[i].0
    ensures forall i :: 0 <= i < |idx| && idx[i].0 != k ==> r[i] == idx[i]
    ensures !HasKey(idx, k) ==> r[|idx|] == (k, v)
  {
    if idx == [] then [(k, v)]
    else if idx[0].0 == k then [(k, v)] + idx[1..]
    else
      assert HasKey(idx, k) <==> HasKey(idx[1..], k) by {
        if HasKey(idx, k) {
          var i :| 0 <= i < |idx| && idx[i].0 == k;
          assert idx[1..][i - 1].0 == k;
        }
        if HasKey(idx[1..], k) {
          var i :| 0 <= i < |idx[1..]| && idx[1..][i].0 == k;
          assert idx[i + 1].0 == k;
        }
      }
      [idx[0]] + Put(idx[1..], k, v)
  }

  /** After `index[k] = v`, looking up `k` gives `v` and every other key gives
      what it gave before. */
  lemma {:induction false} PutLookup(idx: Index, k: string, v: Record)
    ensures Lookup(Put(idx, k, v), k) == Some(v)
    ensures forall k' :: k' != k ==> Lookup(Put(idx, k, v), k') == Lookup(idx, k')
  {
    if idx != [] && idx[0].0 != k {
      PutLookup(idx[1..], k, v);
      var r := Put(idx, k, v);
      assert r[1..] == Put(idx[1..], k, v);
    }
  }

  /** A lookup finds the first entry with its key. */
  lemma {:induction false} LookupFirst(idx: Index, k: string)
    ensures Lookup(idx, k).Some? ==> PosOf(idx, k) < |idx| && idx[PosOf(idx, k)] == (k, Lookup(idx, k).value)
  {
    if idx != [] && idx[0].0 != k {
      LookupFirst(idx[1..], k);
    }
  }

  /** With unique keys, every stored entry is what a lookup of its key finds. */
  lemma {:induction false} LookupAt(idx: Index, i: nat)
    requires UniqueKeys(idx)
    requires i < |idx|
    ensures Lookup(idx, idx[i].0) == Some(idx[i].1)
    ensures PosOf(idx, idx[i].0) == i
  {
    if i > 0 {
      assert UniqueKeys(idx[1..]);
      LookupAt(idx[1..], i - 1);
    }
  }

  /** Assigning a key keeps the keys unique. */
  lemma PutUnique(idx: Index, k: string, v: Record)
    requires UniqueKeys(idx)
    ensures UniqueKeys(Put(idx, k, v))
  {
    var r := Put(idx, k, v);
    if !HasKey(idx, k) {
      forall i | 0 <= i < |idx| ensures idx[i].0 != k { }
    }
  }
}
