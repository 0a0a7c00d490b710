/**
 * Python dicts as insertion-ordered lists of entries. The helpers look
 * up, replace and remove the FIRST entry with a key, which is the dict
 * behaviour whenever the keys are distinct.
 */
module Dicts {
  import opened Wrappers

  /** Position of the first entry with key `k`. */
  function IndexOf<V>(fs: seq<(string, V)>, k: string): (r: Option<nat>)
    ensures r.Some? ==> r.value < |fs| && fs[r.value].0 == k
    ensures r.Some? ==> forall j :: 0 <= j < r.value ==> fs[j].0 != k
    ensures r.None? ==> forall j :: 0 <= j < |fs| ==> fs[j].0 != k
  {
    if |fs| == 0 then None
    else if fs[0].0 == k then Some(0)
    else match IndexOf(fs[1..], k)
      case None => None
      case Some(j) => Some(j + 1)
  }

  predicate HasKey<V>(fs: seq<(string, V)>, k: string) {
    IndexOf(fs, k).Some?
  }

  function Get<V>(fs: seq<(string, V)>, k: string): Option<V> {
    match IndexOf(fs, k)
    case None => None
    case Some(j) => Some(fs[j].1)
  }

  function Keys<V>(fs: seq<(string, V)>): seq<string> {
    seq(|fs|, j requires 0 <= j < |fs| => fs[j].0)
  }

  /** `d[k] = v`: replaces the value in place, or appends a new last entry. */
  function Set<V>(fs: seq<(string, V)>, k: string, v: V): (r: seq<(string, V)>)
    ensures Get(r, k) == Some(v)
    ensures Keys(r) == if HasKey(fs, k) then Keys(fs) else Keys(fs) + [k]
    ensures forall k' :: k' != k ==> Get(r, k') == Get(fs, k')
  {
    match IndexOf(fs, k)
    case None =>
      IndexAfterAppend(fs, k, v, k);
      forall k' | k' != k ensures Get(fs + [(k, v)], k') == Get(fs, k') {
        IndexAfterAppend(fs, k, v, k');
      }
      fs + [(k, v)]
    case Some(j) =>
      var r := fs[j := (k, v)];
      assert IndexOf(r, k) == Some(j) by { IndexAfterUpdate(fs, j, k, v, k); }
      forall k' | k' != k ensures Get(r, k') == Get(fs, k') {
        IndexAfterUpdate(fs, j, k, v, k');
      }
      r
  }

  /** `d.pop(k)` on a dict that holds `k`: drops that entry, keeps the order of the rest. */
  function Remove<V>(fs: seq<(string, V)>, k: string): (r: seq<(string, V)>)
    ensures !HasKey(fs, k) ==> r == fs
    ensures HasKey(fs, k) ==> |r| == |fs| - 1
  {
    match IndexOf(fs, k)
    case None => fs
    case Some(j) => fs[..j] + fs[j + 1..]
  }

  lemma {:induction false} IndexAfterUpdate<V>(fs: seq<(string, V)>, j: nat, k: string, v: V, k': string)
    requires j < |fs| && fs[j].0 == k
    ensures IndexOf(fs[j := (k, v)], k') == IndexOf(fs, k')
  {
    if j > 0 {
      IndexAfterUpdate(fs[1..], j - 1, k, v, k');
      assert fs[j := (k, v)][1..] == fs[1..][j - 1 := (k, v)];
    }
  }

  lemma {:induction false} IndexAfterAppend<V>(fs: seq<(string, V)>, k: string, v: V, k': string)
    requires !HasKey(fs, k)
    ensures IndexOf(fs + [(k, v)], k') ==
      if HasKey(fs, k') then IndexOf(fs, k') else if k' == k then Some(|fs|) else None
  {
    if |fs| > 0 {
      assert (fs + [(k, v)])[1..] == fs[1..] + [(k, v)];
      IndexAfterAppend(fs[1..], k, v, k');
    }
  }

  /** No key occurs twice, as in every real dict. */
  predicate UniqueKeys<V>(fs: seq<(string, V)>) {
    forall i, j :: 0 <= i < j < |fs| ==> fs[i].0 != fs[j].0
  }

  /** `d[k] = v` keeps the keys unique. */
  lemma SetKeepsUnique<V>(fs: seq<(string, V)>, k: string, v: V)
    requires UniqueKeys(fs)
    ensures UniqueKeys(Set(fs, k, v))
  {
    var r := Set(fs, k, v);
    assert Keys(r) == if HasKey(fs, k) then Keys(fs) else Keys(fs) + [k];
    forall i, j | 0 <= i < j < |r| ensures r[i].0 != r[j].0 {
      assert r[i].0 == Keys(r)[i] && r[j].0 == Keys(r)[j];
      if !HasKey(fs, k) && j == |fs| {
        assert fs[i].0 == Keys(fs)[i];
      } else {
        assert fs[i].0 == Keys(fs)[i] && fs[j].0 == Keys(fs)[j];
      }
    }
  }

  /** Lookups in a dict are unaffected by entries appended after it. */
  lemma {:induction false} PrefixKeeps<V>(fs: seq<(string, V)>, gs: seq<(string, V)>, k: string)
    requires fs <= gs && HasKey(fs, k)
    ensures IndexOf(gs, k) == IndexOf(fs, k) && Get(gs, k) == Get(fs, k)
  {
    if fs[0].0 != k {
      assert fs[1..] <= gs[1..];
      PrefixKeeps(fs[1..], gs[1..], k);
    }
  }

  /** The dict built by `d[k] = v` for each pair in turn, later pairs overwriting earlier ones. */
  function FromPairs<V>(ps: seq<(string, V)>): seq<(string, V)>
    decreases |ps|
  {
    if |ps| == 0 then [] else Set(FromPairs(ps[..|ps| - 1]), ps[|ps| - 1].0, ps[|ps| - 1].1)
  }

  /** The value of the last pair with key `k`. */
  function LastValue<V>(ps: seq<(string, V)>, k: string): (r: Option<V>)
    ensures r.None? <==> forall i :: 0 <= i < |ps| ==> ps[i].0 != k
    ensures r.Some? ==>
      exists i :: 0 <= i < |ps| && ps[i] == (k, r.value) && forall j :: i < j < |ps| ==> ps[j].0 != k
    decreases |ps|
  {
    if |ps| == 0 then None
    else if ps[|ps| - 1].0 == k then Some(ps[|ps| - 1].1)
    else
      var r := LastValue(ps[..|ps| - 1], k);
      assert forall i :: 0 <= i < |ps| - 1 ==> ps[..|ps| - 1][i] == ps[i];
      r
  }

  /** Building a dict from pairs keeps, for every key, the value of its last pair. */
  lemma {:induction false} FromPairsGet<V>(ps: seq<(string, V)>, k: string)
    ensures Get(FromPairs(ps), k) == LastValue(ps, k)
    decreases |ps|
  {
    if |ps| > 0 {
      FromPairsGet(ps[..|ps| - 1], k);
    }
  }

  lemma FromPairsSnoc<V>(ps: seq<(string, V)>, e: (string, V))
    ensures FromPairs(ps + [e]) == Set(FromPairs(ps), e.0, e.1)
  {
    assert (ps + [e])[..|ps|] == ps;
  }
}
