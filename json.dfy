/**
 * The values the resources' `to_dict` methods build: `None`, strings, lists
 * and dictionaries. A dictionary is an ordered list of key/value pairs, since
 * Python dictionaries keep insertion order and that order is what the JSON
 * output shows.
 */
module Json {
  import opened Optional

  datatype Json = Null | Str(s: string) | Arr(items: seq<Json>) | Obj(fields: Dict)

  type Dict = seq<(string, Json)>

  /** A string that may be `None`, as a JSON value. */
  function OptStr(o: Option<string>): (r: Json)
    ensures r == Null <==> o.None?
    ensures o.Some? ==> r == Str(o.value)
  {
    match o
    case None => Null
    case Some(s) => Str(s)
  }

  /** The keys of `d`, in order. */
  function Keys(d: Dict): (r: seq<string>)
    ensures |r| == |d|
    ensures forall i :: 0 <= i < |d| ==> r[i] == d[i].0
  {
    if d == [] then [] else [d[0].0] + Keys(d[1..])
  }

  /** `k in d`. */
  predicate HasKey(d: Dict, k: string) {
    k in Keys(d)
  }

  /** No key occurs twice: what every Python dictionary satisfies. */
  predicate UniqueKeys(d: Dict) {
    d == [] || (!HasKey(d[1..], d[0].0) && UniqueKeys(d[1..]))
  }

  /** Keys that differ pairwise by position are distinct in the recursive sense. */
  lemma {:induction false} UniqueByIndex(d: Dict)
    requires forall i, j :: 0 <= i < j < |d| ==> d[i].0 != d[j].0
    ensures UniqueKeys(d)
  {
    if d != [] {
      UniqueByIndex(d[1..]);
    }
  }

  /** `d.get(k)`: the value of the first pair with key `k`. */
  function Get(d: Dict, k: string): (r: Option<Json>)
    ensures r.Some? <==> HasKey(d, k)
  {
    if d == [] then None
    else if d[0].0 == k then Some(d[0].1)
    else
      assert Keys(d) == [d[0].0] + Keys(d[1..]);
      Get(d[1..], k)
  }

  /** In a dictionary with distinct keys, `d.get` of the key at position `i`
      is the value at position `i`. */
  lemma {:induction false} GetAt(d: Dict, i: nat)
    requires UniqueKeys(d) && i < |d|
    ensures Get(d, d[i].0) == Some(d[i].1)
  {
    if i > 0 {
      assert Keys(d[1..])[i - 1] == d[i].0;
      GetAt(d[1..], i - 1);
    }
  }

  /** Looking a key up in two dictionaries laid end to end: the first one
      answers when it has the key. */
  lemma {:induction false} GetAppend(a: Dict, b: Dict, k: string)
    ensures Get(a + b, k) == if HasKey(a, k) then Get(a, k) else Get(b, k)
  {
    if a == [] {
      assert a + b == b;
    } else {
      assert (a + b)[0] == a[0] && (a + b)[1..] == a[1..] + b;
      assert Keys(a) == [a[0].0] + Keys(a[1..]);
      GetAppend(a[1..], b, k);
    }
  }

  /** `d.get(k, default)`. */
  function GetOr(d: Dict, k: string, default: Json): (r: Json)
    ensures HasKey(d, k) ==> Some(r) == Get(d, k)
    ensures !HasKey(d, k) ==> r == default
  {
    match Get(d, k)
    case Some(v) => v
    case None => default
  }

  /** `get` with a default through a first dictionary that lacks the key. */
  lemma GetOrAppend(a: Dict, b: Dict, k: string, default: Json)
    requires !HasKey(a, k)
    ensures GetOr(a + b, k, default) == GetOr(b, k, default)
  {
    GetAppend(a, b, k);
    KeysAppend(a, b);
  }

  /** `d[k] = v`: an existing key keeps its place and takes the new value; a
      new key goes to the end. */
  function Set(d: Dict, k: string, v: Json): Dict {
    if d == [] then [(k, v)]
    else if d[0].0 == k then [(k, v)] + d[1..]
    else [d[0]] + Set(d[1..], k, v)
  }

  /** After `d[k] = v`, `k` maps to `v` and every other key to what it did. */
  lemma {:induction false} SetGet(d: Dict, k: string, v: Json, k': string)
    ensures Get(Set(d, k, v), k') == if k' == k then Some(v) else Get(d, k')
  {
    if d != [] && d[0].0 != k {
      SetGet(d[1..], k, v, k');
    }
  }

  /** Assigning a new key appends it; assigning an existing key keeps every
      key in its place. */
  lemma {:induction false} SetKeys(d: Dict, k: string, v: Json)
    ensures !HasKey(d, k) ==> Set(d, k, v) == d + [(k, v)]
    ensures Keys(Set(d, k, v)) == if HasKey(d, k) then Keys(d) else Keys(d) + [k]
  {
    if d != [] {
      assert Keys(d) == [d[0].0] + Keys(d[1..]);
      if d[0].0 == k {
        assert Keys([(k, v)] + d[1..]) == [k] + Keys(d[1..]);
      } else {
        SetKeys(d[1..], k, v);
        assert Keys([d[0]] + Set(d[1..], k, v)) == [d[0].0] + Keys(Set(d[1..], k, v));
      }
    }
  }

  /** Assignment keeps a dictionary's keys distinct. */
  lemma {:induction false} SetUnique(d: Dict, k: string, v: Json)
    requires UniqueKeys(d)
    ensures UniqueKeys(Set(d, k, v))
  {
    if d != [] && d[0].0 != k {
      SetUnique(d[1..], k, v);
      SetKeys(d[1..], k, v);
      assert [d[0]] + Set(d[1..], k, v) == Set(d, k, v);
    }
  }

  /** `d.update(e)` for a dictionary `e`: every pair of `e` assigned in order. */
  function Update(d: Dict, e: Dict): Dict
    decreases |e|
  {
    if e == [] then d else Update(Set(d, e[0].0, e[0].1), e[1..])
  }

  /** After `d.update(e)`, a key of `e` maps to its value in `e` and any
      other key to its value in `d`. */
  lemma {:induction false} UpdateGet(d: Dict, e: Dict, k: string)
    requires UniqueKeys(e)
    ensures Get(Update(d, e), k) == if HasKey(e, k) then Get(e, k) else Get(d, k)
    decreases |e|
  {
    if e != [] {
      assert Keys(e) == [e[0].0] + Keys(e[1..]);
      SetGet(d, e[0].0, e[0].1, k);
      UpdateGet(Set(d, e[0].0, e[0].1), e[1..], k);
    }
  }

  /** Updating with pairs whose keys are all new appends them in order. */
  lemma {:induction false} UpdateFresh(d: Dict, e: Dict)
    requires UniqueKeys(e)
    requires forall i :: 0 <= i < |e| ==> !HasKey(d, e[i].0)
    ensures Update(d, e) == d + e
    decreases |e|
  {
    if e != [] {
      var d' := d + [e[0]];
      var rest := e[1..];
      assert Set(d, e[0].0, e[0].1) == d' by {
        SetKeys(d, e[0].0, e[0].1);
      }
      assert forall i :: 0 <= i < |rest| ==> !HasKey(d', rest[i].0) by {
        StillFresh(d, e);
      }
      UpdateFresh(d', rest);
      MoveFirst(d, e);
    }
  }

  /** Moving the first element of `e` to the end of `d` keeps `d + e`. */
  lemma MoveFirst<T>(d: seq<T>, e: seq<T>)
    requires e != []
    ensures d + e == (d + [e[0]]) + e[1..]
  {
    assert e == [e[0]] + e[1..];
  }

  /** After the first pair of `e` is appended to `d`, the rest of `e` is
      still new to it. */
  lemma StillFresh(d: Dict, e: Dict)
    requires e != [] && UniqueKeys(e)
    requires forall i :: 0 <= i < |e| ==> !HasKey(d, e[i].0)
    ensures forall i :: 0 <= i < |e[1..]| ==> !HasKey(d + [e[0]], e[1..][i].0)
  {
    KeysAppend(d, [e[0]]);
    assert Keys(d + [e[0]]) == Keys(d) + [e[0].0];
    forall i | 0 <= i < |e[1..]| ensures !HasKey(d + [e[0]], e[1..][i].0) {
      assert e[1..][i] == e[i + 1];
      assert Keys(e[1..])[i] == e[i + 1].0;
      assert !HasKey(d, e[i + 1].0);
    }
  }

  /** The keys of two dictionaries laid end to end. */
  lemma {:induction false} KeysAppend(a: Dict, b: Dict)
    ensures Keys(a + b) == Keys(a) + Keys(b)
    decreases |a|
  {
    if a == [] {
      assert a + b == b;
    } else {
      assert (a + b)[0] == a[0] && (a + b)[1..] == a[1..] + b;
      KeysAppend(a[1..], b);
    }
  }

  /** A key is in two dictionaries laid end to end when it is in either. */
  lemma HasKeyAppend(a: Dict, b: Dict, k: string)
    ensures HasKey(a + b, k) <==> HasKey(a, k) || HasKey(b, k)
  {
    KeysAppend(a, b);
  }

  /** `d.update(e)` keeps a dictionary's keys distinct. */
  lemma {:induction false} UpdateUnique(d: Dict, e: Dict)
    requires UniqueKeys(d)
    ensures UniqueKeys(Update(d, e))
    decreases |e|
  {
    if e != [] {
      SetUnique(d, e[0].0, e[0].1);
      UpdateUnique(Set(d, e[0].0, e[0].1), e[1..]);
    }
  }

  /** Two dictionaries with distinct keys, the second adding only new keys,
      laid end to end have distinct keys. */
  lemma {:induction false} UniqueAppend(a: Dict, b: Dict)
    requires UniqueKeys(a) && UniqueKeys(b)
    requires forall i :: 0 <= i < |b| ==> !HasKey(a, b[i].0)
    ensures UniqueKeys(a + b)
    decreases |a|
  {
    if a == [] {
      assert a + b == b;
    } else {
      assert (a + b)[0] == a[0] && (a + b)[1..] == a[1..] + b;
      assert Keys(a) == [a[0].0] + Keys(a[1..]);
      forall i | 0 <= i < |b| ensures !HasKey(a[1..], b[i].0) {
      }
      UniqueAppend(a[1..], b);
      KeysAppend(a[1..], b);
      forall i | 0 <= i < |b| ensures Keys(b)[i] != a[0].0 {
        assert HasKey(a, b[i].0) == (b[i].0 in Keys(a));
      }
      assert a[0].0 !in Keys(b);
      assert a[0].0 !in Keys(a[1..]);
      assert a[0].0 !in Keys(a[1..]) + Keys(b);
      assert !HasKey(a[1..] + b, a[0].0);
      assert UniqueKeys(a[1..] + b);
    }
  }

  /** The converse: the second of two dictionaries laid end to end with
      distinct keys has distinct keys, and none of them is in the first. */
  lemma {:induction false} UniqueSplit(a: Dict, b: Dict)
    requires UniqueKeys(a + b)
    ensures UniqueKeys(b)
    ensures forall i :: 0 <= i < |b| ==> !HasKey(a, b[i].0)
    decreases |a|
  {
    if a == [] {
      assert a + b == b;
    } else {
      assert (a + b)[0] == a[0] && (a + b)[1..] == a[1..] + b;
      UniqueSplit(a[1..], b);
      KeysAppend(a[1..], b);
      assert Keys(a) == [a[0].0] + Keys(a[1..]);
      forall i | 0 <= i < |b| ensures !HasKey(a, b[i].0) {
        assert Keys(b)[i] == b[i].0;
        assert b[i].0 in Keys(a[1..] + b);
      }
    }
  }

  /** `{k: v for k, v in m.items() if k not in d}`. */
  function Absent(m: Dict, d: Dict): (r: Dict)
    ensures forall i :: 0 <= i < |r| ==> !HasKey(d, r[i].0)
  {
    if m == [] then [] else (if HasKey(d, m[0].0) then [] else [m[0]]) + Absent(m[1..], d)
  }

  /** When `m` is `d` followed by pairs with new keys, the pairs of `m` whose
      keys `d` lacks are exactly those new pairs. */
  lemma {:induction false} AbsentOfExtension(d: Dict, x: Dict)
    requires forall i :: 0 <= i < |x| ==> !HasKey(d, x[i].0)
    ensures Absent(d + x, d) == x
  {
    AbsentAppend(d, x, d);
    AbsentNone(d, d);
    AbsentAll(x, d);
  }

  lemma {:induction false} AbsentAppend(a: Dict, b: Dict, d: Dict)
    ensures Absent(a + b, d) == Absent(a, d) + Absent(b, d)
    decreases |a|
  {
    if a == [] {
      assert a + b == b;
    } else {
      assert (a + b)[0] == a[0];
      assert (a + b)[1..] == a[1..] + b;
      AbsentAppend(a[1..], b, d);
    }
  }

  lemma {:induction false} AbsentNone(a: Dict, d: Dict)
    requires forall i :: 0 <= i < |a| ==> HasKey(d, a[i].0)
    ensures Absent(a, d) == []
    decreases |a|
  {
    if a != [] {
      AbsentNone(a[1..], d);
    }
  }

  lemma {:induction false} AbsentAll(a: Dict, d: Dict)
    requires forall i :: 0 <= i < |a| ==> !HasKey(d, a[i].0)
    ensures Absent(a, d) == a
    decreases |a|
  {
    if a != [] {
      AbsentAll(a[1..], d);
    }
  }
}
