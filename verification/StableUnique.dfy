/** `stable_unique`: the first occurrence of every value, in order. */
module StableUnique {

  function Unique<T(==)>(r: seq<T>): seq<T> {
    if r == [] then []
    else
      var u := Unique(r[..|r| - 1]);
      if r[|r| - 1] in u then u else u + [r[|r| - 1]]
  }

  function Without<T(==)>(r: seq<T>, removed: seq<T>): seq<T> {
    if r == [] then []
    else Without(r[..|r| - 1], removed) + if r[|r| - 1] in removed then [] else [r[|r| - 1]]
  }

  /** The loop with its two vectors, which turn out to be equal. */
  method Deduplicate<T(==)>(r: seq<T>) returns (result: seq<T>)
    ensures result == Unique(r)
  {
    var seen: seq<T> := [];
    result := [];
    for i := 0 to |r|
      invariant seen == result == Unique(r[..i])
    {
      assert r[..i + 1][..i] == r[..i];
      if r[i] !in seen {
        seen := seen + [r[i]];
        result := result + [r[i]];
      }
    }
    assert r[..|r|] == r;
  }

  /** Exactly the values of the input, each once. */
  lemma {:induction false} UniqueElements<T>(r: seq<T>)
    ensures forall v :: v in Unique(r) <==> v in r
    ensures forall i, j :: 0 <= i < j < |Unique(r)| ==> Unique(r)[i] != Unique(r)[j]
  {
    if r != [] {
      UniqueElements(r[..|r| - 1]);
      assert forall v :: v in r <==> v in r[..|r| - 1] || v == r[|r| - 1];
    }
  }

  /** A later stretch contributes its own distinct values, less those already seen. */
  lemma {:induction false} UniqueOfConcat<T>(a: seq<T>, b: seq<T>)
    ensures Unique(a + b) == Unique(a) + Without(Unique(b), a)
    decreases |b|
  {
    if b == [] {
      assert a + b == a;
    } else {
      var b' := b[..|b| - 1];
      var v := b[|b| - 1];
      assert (a + b)[..|a + b| - 1] == a + b';
      UniqueOfConcat(a, b');
      UniqueElements(a);
      UniqueElements(b');
      WithoutElements(Unique(b'), a);
      if v !in Unique(b') {
        assert (Unique(b') + [v])[..|Unique(b')|] == Unique(b');
      }
    }
  }

  lemma {:induction false} WithoutElements<T>(r: seq<T>, removed: seq<T>)
    ensures forall v :: v in Without(r, removed) <==> v in r && v !in removed
  {
    if r != [] {
      WithoutElements(r[..|r| - 1], removed);
      assert forall v :: v in r <==> v in r[..|r| - 1] || v == r[|r| - 1];
    }
  }

  /** A second pass changes nothing. */
  lemma {:induction false} UniqueIsIdempotent<T>(r: seq<T>)
    ensures Unique(Unique(r)) == Unique(r)
  {
    UniqueElements(r);
    DistinctIsFixed(Unique(r));
  }

  lemma {:induction false} DistinctIsFixed<T>(r: seq<T>)
    requires forall i, j :: 0 <= i < j < |r| ==> r[i] != r[j]
    ensures Unique(r) == r
  {
    if r != [] {
      DistinctIsFixed(r[..|r| - 1]);
    }
  }
}
