/** Vocabulary shared by the models: optional values, text, and flattening of fragments. */
module Basics {

  datatype Option<+T> = None | Some(value: T)

  const UINT64_LIMIT: nat := 0x1_0000_0000_0000_0000

  function Min(x: int, y: int): int { if x < y then x else y }

  function Max(x: int, y: int): int { if x > y then x else y }

  /** The concatenation of a sequence of fragments. */
  function Flatten<T>(parts: seq<seq<T>>): seq<T> {
    if parts == [] then [] else parts[0] + Flatten(parts[1..])
  }

  lemma {:induction false} FlattenConcat<T>(a: seq<seq<T>>, b: seq<seq<T>>)
    ensures Flatten(a + b) == Flatten(a) + Flatten(b)
  {
    if a == [] {
      assert a + b == b;
    } else {
      assert (a + b)[0] == a[0] && (a + b)[1..] == a[1..] + b;
      FlattenConcat(a[1..], b);
    }
  }

  lemma {:induction false} FlattenOne<T>(x: seq<T>)
    ensures Flatten([x]) == x
  {
    assert [x][1..] == [];
  }

  lemma {:induction false} FlattenPush<T>(a: seq<seq<T>>, x: seq<T>)
    ensures Flatten(a + [x]) == Flatten(a) + x
  {
    FlattenConcat(a, [x]);
    FlattenOne(x);
  }

  /** Flattening a prefix of the fragments gives a prefix of the whole. */
  lemma {:induction false} FlattenPrefix<T>(a: seq<seq<T>>, k: nat)
    requires k <= |a|
    ensures Flatten(a) == Flatten(a[..k]) + Flatten(a[k..])
  {
    assert a == a[..k] + a[k..];
    FlattenConcat(a[..k], a[k..]);
  }

  lemma {:induction false} TakeMore<T>(before: seq<T>, s: seq<T>, i: nat, n: nat)
    requires i + n <= |s|
    ensures before + s[..i] + s[i..i + n] == before + s[..i + n]
  {
  }

  lemma {:induction false} SplitAt<T>(before: seq<T>, s: seq<T>, i: nat)
    requires i <= |s|
    ensures before + s[..i] + s[i..] == before + s
  {
    assert s[..i] + s[i..] == s;
  }

  lemma {:induction false} Associate<T>(a: seq<T>, b: seq<T>, c: seq<T>)
    ensures a + (b + c) == a + b + c
  {
  }
}
