/** The association list of util/map.c, two parallel arrays, proved to be a finite map. */
module AssocMaps {
  import opened VmTypes

  /** The parallel sequences `ks` and `vs` list the entries of `m`, each key once. */
  ghost predicate Lists<K, V>(ks: seq<K>, vs: seq<V>, m: map<K, V>) {
    && |ks| == |vs|
    && (forall i, j :: 0 <= i < j < |ks| ==> ks[i] != ks[j])
    && (forall i :: 0 <= i < |ks| ==> ks[i] in m && m[ks[i]] == vs[i])
    && (forall k :: k in m ==> k in ks)
  }

  function Without<T>(s: seq<T>, idx: nat): seq<T>
    requires idx < |s|
  {
    s[..idx] + s[idx + 1..]
  }

  lemma WithoutLists<K, V>(ks: seq<K>, vs: seq<V>, m: map<K, V>, idx: nat)
    requires Lists(ks, vs, m) && idx < |ks|
    ensures Lists(Without(ks, idx), Without(vs, idx), m - {ks[idx]})
  {
    var ks' := Without(ks, idx);
    forall k | k in m - {ks[idx]} ensures k in ks' {
      var i :| 0 <= i < |ks| && ks[i] == k;
      assert ks'[if i < idx then i else i - 1] == k;
    }
  }

  lemma AppendLists<K, V>(ks: seq<K>, vs: seq<V>, m: map<K, V>, key: K, val: V)
    requires Lists(ks, vs, m) && key !in m
    ensures Lists(ks + [key], vs + [val], m[key := val])
  {
    assert (ks + [key])[|ks|] == key;
  }

  class AssocMap<K(==,0), V(0)> {
    var keys: array<K>
    var values: array<V>
    var size: int

    ghost var Model: map<K, V>
    ghost var Repr: set<object>

    ghost predicate Valid()
      reads this, Repr
      ensures Valid() ==> this in Repr
    {
      && this in Repr && keys in Repr && values in Repr && Repr == {this, keys, values}
      && keys as object != values as object
      && size == keys.Length == values.Length
      && Lists(keys[..], values[..], Model)
    }

    constructor ()
      ensures Valid() && fresh(Repr)
      ensures Model == map[]
    {
      keys, values, size, Model := new K[0], new V[0], 0, map[];
      new;
      Repr := {this, keys, values};
    }

    method FindKey(key: K) returns (idx: int)
      requires Valid()
      ensures idx == -1 <==> key !in Model
      ensures idx != -1 ==> 0 <= idx < size && keys[idx] == key
    {
      var i := 0;
      while i < size
        invariant 0 <= i <= size
        invariant forall j :: 0 <= j < i ==> keys[j] != key
      {
        if keys[i] == key {
          return i;
        }
        i := i + 1;
      }
      idx := -1;
    }

    /** None stands for ecNotFound. */
    method Get(key: K) returns (val: Option<V>)
      requires Valid()
      ensures val == if key in Model then Some(Model[key]) else None
    {
      var idx := FindKey(key);
      if idx == -1 {
        return None;
      }
      val := Some(values[idx]);
    }

    method Set(key: K, val: V)
      requires Valid()
      modifies Repr
      ensures Valid() && fresh(Repr - old(Repr))
      ensures Model == old(Model)[key := val]
    {
      var idx := FindKey(key);
      if idx == -1 {
        AppendLists(keys[..], values[..], Model, key, val);
        size := size + 1;
        keys := Grow(keys, key);
        values := Grow(values, val);
        Repr := {this, keys, values};
      } else {
        values[idx] := val;
      }
      Model := Model[key := val];
    }

    method Remove(key: K) returns (err: ErrCode)
      requires Valid()
      modifies Repr
      ensures Valid() && fresh(Repr - old(Repr))
      ensures err == if key in old(Model) then EcSuccess else EcNotFound
      ensures Model == old(Model) - {key}
    {
      var idx := FindKey(key);
      if idx == -1 {
        return EcNotFound;
      }
      hide Lists, Without;
      WithoutLists(keys[..], values[..], Model, idx);
      ghost var ks, vs := Without(keys[..], idx), Without(values[..], idx);
      RemoveIdx(keys, idx);
      RemoveIdx(values, idx);
      size := size - 1;
      keys := Shrink(keys);
      values := Shrink(values);
      assert keys[..] == ks && values[..] == vs;
      Repr := {this, keys, values};
      Model := Model - {key};
      err := EcSuccess;
    }
  }

  /** Shift the elements after `idx` down by one; the last element stays where it is. */
  method RemoveIdx<T>(arr: array<T>, idx: nat)
    requires idx < arr.Length
    modifies arr
    ensures arr[..arr.Length - 1] == Without(old(arr[..]), idx)
  {
    var i := idx;
    while i < arr.Length - 1
      invariant idx <= i < arr.Length
      invariant forall j :: 0 <= j < i ==> arr[j] == old(arr[if j < idx then j else j + 1])
      invariant forall j :: i <= j < arr.Length ==> arr[j] == old(arr[j])
    {
      arr[i] := arr[i + 1];
      i := i + 1;
    }
  }

  /** realloc to one element more, and fill it in. */
  method Grow<T(0)>(arr: array<T>, last: T) returns (r: array<T>)
    ensures fresh(r) && r[..] == arr[..] + [last]
  {
    r := new T[arr.Length + 1];
    forall i | 0 <= i < arr.Length { r[i] := arr[i]; }
    r[arr.Length] := last;
  }

  /** realloc to one element less. */
  method Shrink<T(0)>(arr: array<T>) returns (r: array<T>)
    requires arr.Length > 0
    ensures fresh(r) && r[..] == arr[..arr.Length - 1]
  {
    r := new T[arr.Length - 1];
    forall i | 0 <= i < arr.Length - 1 { r[i] := arr[i]; }
  }
}
