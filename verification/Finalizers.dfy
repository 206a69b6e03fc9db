/** Finalizer lists: both controllers rebuild the list without their own finalizer. */
module Finalizers {
  function Without(finalizers: seq<string>, finalizer: string): seq<string> {
    if finalizers == [] then []
    else if finalizers[0] == finalizer then Without(finalizers[1..], finalizer)
    else [finalizers[0]] + Without(finalizers[1..], finalizer)
  }

  /** The loop that rebuilds the list. */
  method RemoveFinalizer(finalizers: seq<string>, finalizer: string) returns (kept: seq<string>)
    ensures kept == Without(finalizers, finalizer)
    ensures finalizer !in kept
    ensures forall f | f != finalizer :: multiset(kept)[f] == multiset(finalizers)[f]
  {
    kept := [];
    for i := 0 to |finalizers|
      invariant kept + Without(finalizers[i..], finalizer) == Without(finalizers, finalizer)
      invariant finalizer !in kept
      invariant forall f | f != finalizer :: multiset(kept)[f] == multiset(finalizers[..i])[f]
    {
      assert finalizers[i..][1..] == finalizers[i + 1..];
      assert finalizers[..i + 1] == finalizers[..i] + [finalizers[i]];
      if finalizers[i] != finalizer {
        kept := kept + [finalizers[i]];
      }
    }
    assert finalizers[..|finalizers|] == finalizers;
  }

  lemma {:induction false} WithoutElements(finalizers: seq<string>, finalizer: string)
    ensures forall f :: f in Without(finalizers, finalizer) <==> f in finalizers && f != finalizer
  {
    if finalizers != [] {
      WithoutElements(finalizers[1..], finalizer);
    }
  }

  /** The other finalizers keep their order. */
  lemma {:induction false} WithoutKeepsOrder(
    before: seq<string>, f: string, between: seq<string>, g: string, after: seq<string>, finalizer: string)
    requires f != finalizer && g != finalizer
    ensures Without(before + [f] + between + [g] + after, finalizer) ==
            Without(before, finalizer) + [f] + Without(between, finalizer) + [g] + Without(after, finalizer)
  {
    WithoutConcat(before + [f] + between + [g], after, finalizer);
    WithoutConcat(before + [f] + between, [g], finalizer);
    WithoutConcat(before + [f], between, finalizer);
    WithoutConcat(before, [f], finalizer);
  }

  lemma {:induction false} WithoutConcat(a: seq<string>, b: seq<string>, finalizer: string)
    ensures Without(a + b, finalizer) == Without(a, finalizer) + Without(b, finalizer)
  {
    if a == [] {
      assert a + b == b;
    } else {
      assert (a + b)[1..] == a[1..] + b;
      WithoutConcat(a[1..], b, finalizer);
    }
  }
}
