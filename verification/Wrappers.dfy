/** Optional values, bytes and mapping over a sequence, shared by the modules of the
    project, and the facts about sequences that most of them need told. */
module Wrappers {
  datatype Option<+T> = None | Some(value: T)

  type byte = x: int | 0 <= x < 256

  lemma {:induction false} Regroup<T>(a: seq<T>, b: seq<T>, c: seq<T>)
    ensures a + (b + c) == a + b + c
    ensures a + [] == a
  {
  }

  function Mapped<A, B>(f: A -> B, s: seq<A>): (r: seq<B>)
    ensures |r| == |s|
  {
    if s == [] then [] else [f(s[0])] + Mapped(f, s[1..])
  }

  lemma {:induction false} MappedAt<A, B>(f: A -> B, s: seq<A>, i: nat)
    requires i < |s|
    ensures Mapped(f, s)[i] == f(s[i])
  {
    if i > 0 {
      MappedAt(f, s[1..], i - 1);
    }
  }

  lemma {:induction false} MappedOneMore<A, B>(f: A -> B, s: seq<A>, x: A)
    ensures Mapped(f, s + [x]) == Mapped(f, s) + [f(x)]
  {
    if s == [] {
      assert [x][1..] == [];
    } else {
      MappedOneMore(f, s[1..], x);
      assert (s + [x])[1..] == s[1..] + [x];
    }
  }
}
