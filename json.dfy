/**
 * A JSON value as `json.load` returns it. An object is a Python dict, so its fields keep
 * insertion order: a field that is assigned again keeps its place, a new field goes last.
 */
module Json {
  import opened Wrappers

  datatype Value =
    | Null
    | Bool(b: bool)
    | Number(n: real)
    | String(s: string)
    | Array(elems: seq<Value>)
    | Object(fields: seq<(string, Value)>)

  /** The keys of an object's fields, in order. */
  function Keys(fields: seq<(string, Value)>): (ks: seq<string>)
    ensures |ks| == |fields| && forall i :: 0 <= i < |fields| ==> ks[i] == fields[i].0
  {
    seq(|fields|, i requires 0 <= i < |fields| => fields[i].0)
  }

  lemma KeysCons(f: (string, Value), rest: seq<(string, Value)>)
    ensures Keys([f] + rest) == [f.0] + Keys(rest)
  {
    var a, b := Keys([f] + rest), [f.0] + Keys(rest);
    forall i | 0 <= i < |a| ensures a[i] == b[i] {
      if i > 0 {
        assert ([f] + rest)[i] == rest[i - 1];
      }
    }
  }

  /** No key occurs twice, as in any dict. */
  predicate UniqueKeys(fields: seq<(string, Value)>) {
    forall i, j :: 0 <= i < j < |fields| ==> fields[i].0 != fields[j].0
  }

  /** `d.get(k)`: the value of the first field named `k`. */
  function Get(fields: seq<(string, Value)>, k: string): (r: Option<Value>)
    ensures r.None? <==> k !in Keys(fields)
    ensures r.Some? ==> exists i :: 0 <= i < |fields| && fields[i] == (k, r.value)
  {
    if fields == [] then None
    else if fields[0].0 == k then Some(fields[0].1)
    else
      var r := Get(fields[1..], k);
      assert fields == [fields[0]] + fields[1..];
      KeysCons(fields[0], fields[1..]);
      if r.Some? then
        var i :| 0 <= i < |fields[1..]| && fields[1..][i] == (k, r.value);
        assert fields[i + 1] == (k, r.value);
        r
      else r
  }

  /** Fields in front that are not named `k` do not change what `d.get(k)` reads. */
  lemma {:induction false} GetPastHead(head: seq<(string, Value)>, rest: seq<(string, Value)>, k: string)
    requires forall j :: 0 <= j < |head| ==> head[j].0 != k
    ensures Get(head + rest, k) == Get(rest, k)
  {
    if head != [] {
      assert (head + rest)[0] == head[0] && (head + rest)[1..] == head[1..] + rest;
      GetPastHead(head[1..], rest, k);
    } else {
      assert head + rest == rest;
    }
  }

  /** `d[k] = v`: replaces the value of field `k` in place, or appends the field when it is new. */
  function Put(fields: seq<(string, Value)>, k: string, v: Value): (r: seq<(string, Value)>)
    ensures k in Keys(fields) ==> Keys(r) == Keys(fields)
    ensures k !in Keys(fields) ==> Keys(r) == Keys(fields) + [k]
  {
    if fields == [] then [(k, v)]
    else
      assert fields == [fields[0]] + fields[1..];
      KeysCons(fields[0], fields[1..]);
      if fields[0].0 == k then
        KeysCons((k, v), fields[1..]);
        [(k, v)] + fields[1..]
      else
        var r := Put(fields[1..], k, v);
        KeysCons(fields[0], r);
        [fields[0]] + r
  }

  lemma GetCons(f: (string, Value), rest: seq<(string, Value)>, k: string)
    ensures Get([f] + rest, k) == if f.0 == k then Some(f.1) else Get(rest, k)
  {
    assert ([f] + rest)[0] == f && ([f] + rest)[1..] == rest;
  }

  /** After `d[k] = v`, `d[k]` is `v` and every other key reads as before. */
  lemma {:induction false} PutGet(fields: seq<(string, Value)>, k: string, v: Value, other: string)
    ensures Get(Put(fields, k, v), k) == Some(v)
    ensures other != k ==> Get(Put(fields, k, v), other) == Get(fields, other)
  {
    if fields == [] {
      GetCons((k, v), [], k);
      GetCons((k, v), [], other);
    } else {
      var f, rest := fields[0], fields[1..];
      assert fields == [f] + rest;
      GetCons(f, rest, other);
      if f.0 == k {
        GetCons((k, v), rest, k);
        GetCons((k, v), rest, other);
      } else {
        PutGet(rest, k, v, other);
        GetCons(f, Put(rest, k, v), k);
        GetCons(f, Put(rest, k, v), other);
      }
    }
  }

  /** Assignment keeps a dict a dict. */
  lemma {:induction false} PutUnique(fields: seq<(string, Value)>, k: string, v: Value)
    requires UniqueKeys(fields)
    ensures UniqueKeys(Put(fields, k, v))
  {
    var r := Put(fields, k, v);
    forall i, j | 0 <= i < j < |r| ensures r[i].0 != r[j].0 {
      assert r[i].0 == Keys(r)[i] && r[j].0 == Keys(r)[j];
      if k in Keys(fields) {
        assert Keys(fields)[i] == fields[i].0 && Keys(fields)[j] == fields[j].0;
      } else if j < |fields| {
        assert Keys(fields)[i] == fields[i].0 && Keys(fields)[j] == fields[j].0;
      }
    }
  }

  /** Assigning a key that is present changes that field's value and nothing else, in place. */
  lemma {:induction false} PutExisting(fields: seq<(string, Value)>, i: nat, v: Value)
    requires i < |fields| && UniqueKeys(fields)
    ensures Put(fields, fields[i].0, v) == fields[i := (fields[i].0, v)]
  {
    if i > 0 {
      assert fields[0].0 != fields[i].0;
      PutExisting(fields[1..], i - 1, v);
      assert fields[1..][i - 1 := (fields[i].0, v)] == fields[i := (fields[i].0, v)][1..];
    }
  }
}
