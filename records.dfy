/** Parsed JSON values and the dict-shaped rows the flattener builds from them. */
module Records {
  import opened Wrappers

  /** A JSON value as `json.loads` returns it.  An object is the sequence of its members in
      the order the resulting dict iterates them. */
  datatype Json =
    | JNull
    | JBool(b: bool)
    | JNumber(literal: string)
    | JString(str: string)
    | JArray(elems: seq<Json>)
    | JObject(members: seq<(string, Json)>)

  /** A row of a frame: a dict from column name to value, in insertion order. */
  type Row = seq<(string, Json)>

  function Keys(row: Row): (ks: seq<string>)
    ensures |ks| == |row|
    ensures forall i :: 0 <= i < |row| ==> ks[i] == row[i].0
  {
    seq(|row|, i requires 0 <= i < |row| => row[i].0)
  }

  predicate HasKey(row: Row, k: string) {
    exists i :: 0 <= i < |row| && row[i].0 == k
  }

  /** What a dict guarantees: no key occurs twice. */
  predicate DistinctKeys(row: Row) {
    forall i, j :: 0 <= i < j < |row| ==> row[i].0 != row[j].0
  }

  /** `row.get(k)`.  Where a key is repeated the last occurrence wins, as when a dict is
      built from the sequence. */
  function Lookup(row: Row, k: string): (r: Option<Json>)
    ensures r.Some? <==> HasKey(row, k)
    ensures r.Some? ==> (k, r.value) in row
    decreases |row|
  {
    if row == [] then None
    else if row[|row| - 1].0 == k then Some(row[|row| - 1].1)
    else
      var r := Lookup(row[..|row| - 1], k);
      assert forall i :: 0 <= i < |row| - 1 ==> row[..|row| - 1][i] == row[i];
      r
  }

  /** Every member with key `k` takes the value `v`; nothing moves. */
  function Replace(row: Row, k: string, v: Json): (r: Row)
    ensures Keys(r) == Keys(row)
  {
    seq(|row|, i requires 0 <= i < |row| => if row[i].0 == k then (k, v) else row[i])
  }

  /** `row[k] = v`: an existing key keeps its position and takes the new value, a new key
      is appended. */
  function Set(row: Row, k: string, v: Json): Row {
    if HasKey(row, k) then Replace(row, k, v) else row + [(k, v)]
  }

  /** `{**base, **kvs}`: the members of `kvs` assigned into `base` one after another. */
  function Overlay(base: Row, kvs: seq<(string, Json)>): Row
    decreases |kvs|
  {
    if kvs == [] then base
    else
      var n := |kvs| - 1;
      Set(Overlay(base, kvs[..n]), kvs[n].0, kvs[n].1)
  }

  /** A sequence is its part before `i`, its element at `i` and its part after `i`. */
  lemma SplitAt<T>(s: seq<T>, i: nat)
    requires i < |s|
    ensures s == s[..i] + [s[i]] + s[i + 1..]
  {
  }

  lemma {:induction false} ReplaceLookup(row: Row, k: string, v: Json, k': string)
    ensures Lookup(Replace(row, k, v), k') ==
            if k' != k then Lookup(row, k') else if HasKey(row, k) then Some(v) else None
    decreases |row|
  {
    if row != [] {
      var n := |row| - 1;
      var r := Replace(row, k, v);
      assert r[..n] == Replace(row[..n], k, v);
      ReplaceLookup(row[..n], k, v, k');
      HasKeyLast(row, k);
    }
  }

  /** A row has a key when its last member or the members before it have it. */
  lemma HasKeyLast(row: Row, k: string)
    requires row != []
    ensures HasKey(row, k) <==> row[|row| - 1].0 == k || HasKey(row[..|row| - 1], k)
  {
    var n := |row| - 1;
    if HasKey(row, k) && row[n].0 != k {
      var i :| 0 <= i < |row| && row[i].0 == k;
      assert row[..n][i].0 == k;
    }
    if HasKey(row[..n], k) {
      var i :| 0 <= i < n && row[..n][i].0 == k;
      assert row[i].0 == k;
    }
  }

  /** After `row[k] = v`, key `k` reads `v` and every other key reads what it read before. */
  lemma SetLookup(row: Row, k: string, v: Json, k': string)
    ensures Lookup(Set(row, k, v), k') == if k' == k then Some(v) else Lookup(row, k')
  {
    if HasKey(row, k) {
      ReplaceLookup(row, k, v, k');
    } else {
      assert (row + [(k, v)])[..|row|] == row;
    }
  }

  /** `row[k] = v` keeps the columns in place and adds `k` at the end only when it is new. */
  lemma SetKeys(row: Row, k: string, v: Json)
    ensures Keys(Set(row, k, v)) == if HasKey(row, k) then Keys(row) else Keys(row) + [k]
    ensures DistinctKeys(row) ==> DistinctKeys(Set(row, k, v))
  {
    var r := Set(row, k, v);
    if !HasKey(row, k) {
      assert Keys(r) == Keys(row) + [k];
    } else {
      assert forall i :: 0 <= i < |r| ==> r[i].0 == Keys(r)[i] == Keys(row)[i] == row[i].0;
    }
  }

  /** The overlay reads, for each key, the last value `kvs` gives it and otherwise the base
      value: the later source wins. */
  lemma {:induction false} OverlayLookup(base: Row, kvs: seq<(string, Json)>, k: string)
    ensures Lookup(Overlay(base, kvs), k) == if HasKey(kvs, k) then Lookup(kvs, k) else Lookup(base, k)
    decreases |kvs|
  {
    if kvs != [] {
      var n := |kvs| - 1;
      OverlayLookup(base, kvs[..n], k);
      SetLookup(Overlay(base, kvs[..n]), kvs[n].0, kvs[n].1, k);
      HasKeyLast(kvs, k);
    }
  }

  /** The overlay keeps the columns of the base at their positions, and a base with distinct
      keys stays a dict. */
  lemma {:induction false} OverlayKeys(base: Row, kvs: seq<(string, Json)>)
    ensures |Overlay(base, kvs)| >= |base|
    ensures Keys(Overlay(base, kvs))[..|base|] == Keys(base)
    ensures DistinctKeys(base) ==> DistinctKeys(Overlay(base, kvs))
    decreases |kvs|
  {
    if kvs != [] {
      var n := |kvs| - 1;
      var prev := Overlay(base, kvs[..n]);
      OverlayKeys(base, kvs[..n]);
      SetKeys(prev, kvs[n].0, kvs[n].1);
      assert Keys(Overlay(base, kvs))[..|prev|] == Keys(prev);
      assert Keys(prev)[..|base|] == Keys(base);
    }
  }
}
