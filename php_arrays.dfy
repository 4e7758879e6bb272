/**
 * PHP arrays whose keys are all strings, as the client builds its query parameters:
 * an insertion-ordered list of key/value entries in which no key occurs twice.
 * Element assignment (`$a[k] = v`) and `array_merge` are defined here because the
 * order of the entries decides the order of the parameters in the query string.
 */
module PhpArrays {
  import opened Wrappers

  type Entries = seq<(string, string)>

  /** The keys of `a`, in order. */
  function Keys(a: Entries): seq<string>
  {
    if |a| == 0 then [] else [a[0].0] + Keys(a[1..])
  }

  /** Every PHP array has distinct keys. */
  predicate UniqueKeys(a: Entries)
  {
    |a| == 0 || (a[0].0 !in Keys(a[1..]) && UniqueKeys(a[1..]))
  }

  /** `$a[k]`: the value stored under `k`, or None (PHP's null) when `k` is absent. */
  function Get(a: Entries, k: string): (r: Option<string>)
    ensures r.Some? <==> k in Keys(a)
    ensures r.Some? ==> (k, r.value) in a
  {
    if |a| == 0 then None
    else if a[0].0 == k then Some(a[0].1)
    else Get(a[1..], k)
  }

  /** `$a[k]`, reading a missing key as `default` (`search` passes `''`, since `trim(null)` is `''`). */
  function GetOr(a: Entries, k: string, default: string): (v: string)
    ensures k in Keys(a) ==> Some(v) == Get(a, k)
    ensures k !in Keys(a) ==> v == default
  {
    match Get(a, k)
    case Some(v) => v
    case None => default
  }

  /**
   * `$a[k] = v`: an existing key keeps its position and takes the new value,
   * a new key is appended at the end.
   */
  function Put(a: Entries, k: string, v: string): (r: Entries)
    requires UniqueKeys(a)
    ensures UniqueKeys(r)
    ensures Keys(r) == if k in Keys(a) then Keys(a) else Keys(a) + [k]
  {
    if |a| == 0 then [(k, v)]
    else if a[0].0 == k then
      var r := [(k, v)] + a[1..];
      assert r[1..] == a[1..];
      r
    else
      var rest := Put(a[1..], k, v);
      var r := [a[0]] + rest;
      assert r[1..] == rest;
      r
  }

  /** After `$a[k] = v`, `$a[k]` reads `v` and every other key reads what it read before. */
  lemma {:induction false} PutGet(a: Entries, k: string, v: string, k': string)
    requires UniqueKeys(a)
    ensures Get(Put(a, k, v), k') == if k' == k then Some(v) else Get(a, k')
  {
    if |a| > 0 && a[0].0 != k {
      PutGet(a[1..], k, v, k');
      assert Put(a, k, v)[1..] == Put(a[1..], k, v);
    }
  }

  /** The keys of `ks` that are not in `drop`, in their order. */
  function Without(ks: seq<string>, drop: seq<string>): seq<string>
  {
    if |ks| == 0 then []
    else if ks[0] in drop then Without(ks[1..], drop)
    else [ks[0]] + Without(ks[1..], drop)
  }

  lemma {:induction false} WithoutExtendDrop(ks: seq<string>, drop: seq<string>, k: string)
    requires k !in ks
    ensures Without(ks, drop + [k]) == Without(ks, drop)
  {
    if |ks| > 0 {
      WithoutExtendDrop(ks[1..], drop, k);
    }
  }

  lemma WithoutCons(k: string, ks: seq<string>, drop: seq<string>)
    ensures Without([k] + ks, drop) == if k in drop then Without(ks, drop) else [k] + Without(ks, drop)
  {
    assert ([k] + ks)[1..] == ks;
  }

  lemma {:induction false} WithoutDroppedLast(ks: seq<string>, k: string, drop: seq<string>)
    requires k in drop
    ensures Without(ks + [k], drop) == Without(ks, drop)
  {
    if |ks| == 0 {
      assert ks + [k] == [k];
    } else {
      assert (ks + [k])[1..] == ks[1..] + [k];
      WithoutDroppedLast(ks[1..], k, drop);
    }
  }

  /** How the merged key order grows by one assignment of a key `k` not among the later keys `rest`. */
  lemma KeysStep(base: seq<string>, next: seq<string>, k: string, rest: seq<string>)
    requires next == if k in base then base else base + [k]
    requires k !in rest
    ensures next + Without(rest, next) == base + Without([k] + rest, base)
  {
    WithoutCons(k, rest, base);
    if k !in base {
      WithoutExtendDrop(rest, base, k);
      assert next + Without(rest, next) == base + ([k] + Without(rest, base));
    }
  }

  /**
   * `array_merge(base, over)` for string keys: start from `base` and assign every
   * entry of `over` in its order.
   */
  function Merge(base: Entries, over: Entries): (r: Entries)
    requires UniqueKeys(base) && UniqueKeys(over)
    ensures UniqueKeys(r)
    decreases |over|
  {
    if |over| == 0 then base
    else Merge(Put(base, over[0].0, over[0].1), over[1..])
  }

  /** In the merged array the values of `over` win and the other keys keep the value of `base`. */
  lemma {:induction false} MergeGet(base: Entries, over: Entries, k: string)
    requires UniqueKeys(base) && UniqueKeys(over)
    ensures Get(Merge(base, over), k) == if Get(over, k).Some? then Get(over, k) else Get(base, k)
    decreases |over|
  {
    if |over| > 0 {
      var (k0, v0) := over[0];
      MergeGet(Put(base, k0, v0), over[1..], k);
      PutGet(base, k0, v0, k);
      if k == k0 {
        assert k0 !in Keys(over[1..]);
      }
    }
  }

  /** The order of the merged keys: those of `base` in place, then the new ones of `over` in their order. */
  lemma {:induction false} MergeKeys(base: Entries, over: Entries)
    requires UniqueKeys(base) && UniqueKeys(over)
    ensures Keys(Merge(base, over)) == Keys(base) + Without(Keys(over), Keys(base))
    decreases |over|
  {
    if |over| > 0 {
      var (k, v) := over[0];
      var rest := over[1..];
      var next := Put(base, k, v);
      MergeKeys(next, rest);
      KeysStep(Keys(base), Keys(next), k, Keys(rest));
    }
  }
}
