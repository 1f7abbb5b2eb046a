/**
 * A Python `dict` with string keys and its key insertion order. Iterating a dict visits keys
 * in the order they were first inserted, and assigning to an existing key
 * keeps its place; where the translation code iterates a dict it fills, the
 * order decides which of two colliding writes is the later one.
 */
module Dicts {
  import opened Wrappers

  datatype Dict<V> = Dict(order: seq<string>, items: map<string, V>)

  /** Language code -> text: the per-language dicts the extractor and the title helpers share. */
  type Translations = map<string, string>

  /** The keys are listed once each, and exactly the keys of `items` are listed. */
  ghost predicate Valid<V>(d: Dict<V>) {
    && (forall i, j :: 0 <= i < j < |d.order| ==> d.order[i] != d.order[j])
    && (forall k :: k in d.items <==> k in d.order)
  }

  /**
   * Growing the visited prefix of the order by one key: a key is in the longer
   * prefix iff it is in the shorter one or is the new key, and the new key was
   * not in the shorter one.
   */
  lemma PrefixStep<V>(d: Dict<V>, m: nat, k: string)
    requires Valid(d) && 0 < m <= |d.order|
    ensures d.order[m - 1] !in d.order[..m - 1]
    ensures k in d.order[..m] <==> k in d.order[..m - 1] || k == d.order[m - 1]
  {
    assert d.order[..m] == d.order[..m - 1] + [d.order[m - 1]];
  }

  function Empty<V>(): (d: Dict<V>)
    ensures Valid(d) && d.items == map[]
  {
    Dict([], map[])
  }

  /** `d[k] = v`: a new key goes to the end of the order, an existing key keeps its place. */
  function Put<V>(d: Dict<V>, k: string, v: V): (r: Dict<V>)
    ensures Valid(d) ==> Valid(r)
    ensures r.items == d.items[k := v]
    ensures k in d.items ==> r.order == d.order
    ensures k !in d.items ==> r.order == d.order + [k]
  {
    Dict(if k in d.items then d.order else d.order + [k], d.items[k := v])
  }

  // ---------------------------------------------------------------------------
  // Re-keying a dict in iteration order: `for key, v in d.items(): if keep(key,
  // v): out[slot(key)] = value(v)`. Two keys may share a slot; the later wins.

  /** `out` after the loop has visited the first `n` keys of `d`. */
  function Rekey<V, W>(d: Dict<V>, n: nat, keep: (string, V) -> bool, slot: string -> string, value: V -> W): map<string, W>
    requires Valid(d) && n <= |d.order|
  {
    if n == 0 then map[]
    else
      var key := d.order[n - 1];
      var prev := Rekey(d, n - 1, keep, slot, value);
      if keep(key, d.items[key]) then prev[slot(key) := value(d.items[key])] else prev
  }

  /** The j-th key of `d` is kept and lands in slot `s`. */
  predicate LandsIn<V>(d: Dict<V>, j: nat, keep: (string, V) -> bool, slot: string -> string, s: string) {
    && j < |d.order|
    && d.order[j] in d.items
    && keep(d.order[j], d.items[d.order[j]])
    && slot(d.order[j]) == s
  }

  /** The last of the first `n` keys of `d` that lands in slot `s`, if any. */
  function LastLanding<V>(d: Dict<V>, n: nat, keep: (string, V) -> bool, slot: string -> string, s: string): (r: Option<nat>)
    requires n <= |d.order|
    ensures r.Some? ==> r.value < n && LandsIn(d, r.value, keep, slot, s)
    ensures r.Some? ==> forall j :: r.value < j < n ==> !LandsIn(d, j, keep, slot, s)
    ensures r.None? ==> forall j :: 0 <= j < n ==> !LandsIn(d, j, keep, slot, s)
  {
    if n == 0 then None
    else if LandsIn(d, n - 1, keep, slot, s) then Some(n - 1)
    else LastLanding(d, n - 1, keep, slot, s)
  }

  /** A slot is filled exactly when some key lands in it, and holds the value of the LAST such key. */
  lemma {:induction false} RekeyEntry<V, W>(d: Dict<V>, n: nat, keep: (string, V) -> bool, slot: string -> string, value: V -> W, s: string)
    requires Valid(d) && n <= |d.order|
    ensures s in Rekey(d, n, keep, slot, value) <==> LastLanding(d, n, keep, slot, s).Some?
    ensures s in Rekey(d, n, keep, slot, value) ==>
      Rekey(d, n, keep, slot, value)[s] == value(d.items[d.order[LastLanding(d, n, keep, slot, s).value]])
  {
    if n > 0 {
      RekeyEntry(d, n - 1, keep, slot, value, s);
    }
  }

  /** Keys that share a slot count once: there are never more slots than keys visited. */
  lemma {:induction false} RekeySize<V, W>(d: Dict<V>, n: nat, keep: (string, V) -> bool, slot: string -> string, value: V -> W)
    requires Valid(d) && n <= |d.order|
    ensures |Rekey(d, n, keep, slot, value)| <= n
  {
    if n > 0 {
      RekeySize(d, n - 1, keep, slot, value);
      var key := d.order[n - 1];
      var prev := Rekey(d, n - 1, keep, slot, value);
      if keep(key, d.items[key]) {
        assert Rekey(d, n, keep, slot, value).Keys == prev.Keys + {slot(key)};
      }
    }
  }
}
