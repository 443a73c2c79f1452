/** Strings in byte order: the one sorted listing of a set of them. */
module SortedNames {
  import opened Text

  /** `str` comparison, strictly. */
  predicate Less(a: string, b: string)
    decreases |a|
  {
    if b == "" then false
    else if a == "" then true
    else a[0] < b[0] || (a[0] == b[0] && Less(a[1..], b[1..]))
  }

  /** One is before the other if it is a beginning of it, or has the lesser character where they first
      differ. */
  lemma {:induction false} LessExactly(a: string, b: string)
    ensures Less(a, b) <==> exists p: nat ::
      p <= |a| && p < |b| && a[..p] == b[..p] && (p == |a| || a[p] < b[p])
    decreases |a|
  {
    FirstChars(a, b);
    if b != "" && a != "" && a[0] == b[0] {
      LessExactly(a[1..], b[1..]);
      if Less(a, b) {
        var q: nat :| q <= |a[1..]| && q < |b[1..]| && a[1..][..q] == b[1..][..q] && (q == |a[1..]| || a[1..][q] < b[1..][q]);
        assert a[..q + 1] == [a[0]] + a[1..][..q] && b[..q + 1] == [b[0]] + b[1..][..q];
      }
      if p: nat :| p <= |a| && p < |b| && a[..p] == b[..p] && (p == |a| || a[p] < b[p]) {
        assert p > 0;
        assert a[1..][..p - 1] == a[..p][1..] && b[1..][..p - 1] == b[..p][1..];
      }
    } else if Less(a, b) {
      assert a[..0] == b[..0];
    }
  }

  lemma FirstChars(a: string, b: string)
    ensures forall p: nat | 0 < p <= |a| && p <= |b| && a[..p] == b[..p] :: a[0] == b[0]
  {
    forall p: nat | 0 < p <= |a| && p <= |b| && a[..p] == b[..p]
      ensures a[0] == b[0]
    {
      assert a[..p][0] == b[..p][0];
    }
  }

  lemma {:induction false} LessIsTotal(a: string, b: string)
    ensures Less(a, b) || Less(b, a) || a == b
    decreases |a|
  {
    if a != "" && b != "" && a[0] == b[0] {
      LessIsTotal(a[1..], b[1..]);
      assert a == [a[0]] + a[1..] && b == [b[0]] + b[1..];
    }
  }

  lemma {:induction false} LessIsStrict(a: string, b: string)
    ensures Less(a, b) ==> !Less(b, a) && a != b
    decreases |a|
  {
    if a != "" && b != "" { LessIsStrict(a[1..], b[1..]); }
  }

  lemma {:induction false} LessIsTransitive(a: string, b: string, c: string)
    requires Less(a, b) && Less(b, c)
    ensures Less(a, c)
    decreases |a|
  {
    if a != "" && a[0] == b[0] && b[0] == c[0] { LessIsTransitive(a[1..], b[1..], c[1..]); }
  }

  predicate Sorted(names: seq<string>) {
    forall i, j | 0 <= i < j < |names| :: Less(names[i], names[j])
  }

  /** Put a name where it belongs. */
  function Place(names: seq<string>, n: string): seq<string> {
    if names == [] then [n]
    else if Less(n, names[0]) then [n] + names
    else [names[0]] + Place(names[1..], n)
  }

  /** `sort_by(|a, b| a.cmp(b))` on names of which no two are equal. */
  function SortNames(names: seq<string>): seq<string> {
    if names == [] then [] else Place(SortNames(names[1..]), names[0])
  }

  lemma ToSetCons(n: string, names: seq<string>)
    ensures Elements([n] + names) == {n} + Elements(names)
  {}

  lemma {:induction false} PlaceAdds(names: seq<string>, n: string)
    ensures Elements(Place(names, n)) == Elements(names) + {n}
  {
    hide Elements;
    if names == [] {
      ToSetCons(n, names);
      assert [n] + names == [n];
    } else {
      ToSetCons(n, names);
      ToSetCons(names[0], names[1..]);
      ToSetCons(names[0], Place(names[1..], n));
      assert names == [names[0]] + names[1..];
      PlaceAdds(names[1..], n);
    }
  }

  lemma SortedCons(n: string, names: seq<string>)
    requires Sorted(names) && forall x | x in Elements(names) :: Less(n, x)
    ensures Sorted([n] + names)
  {
    hide Less;
    assert forall j | 0 <= j < |names| :: names[j] in Elements(names);
  }

  lemma {:induction false} PlaceSorts(names: seq<string>, n: string)
    requires Sorted(names) && n !in names
    ensures Sorted(Place(names, n))
  {
    hide Less, Elements;
    if names != [] {
      var rest := names[1..];
      LessIsTotal(n, names[0]);
      HeadIsLeast(names);
      if Less(n, names[0]) {
        forall x | x in Elements(names)
          ensures Less(n, x)
        {
          if x != names[0] { LessIsTransitive(n, names[0], x); }
        }
        SortedCons(n, names);
      } else {
        PlaceSorts(rest, n);
        PlaceAdds(rest, n);
        TailIsIn(names);
        SortedCons(names[0], Place(rest, n));
      }
    }
  }

  lemma HeadIsLeast(names: seq<string>)
    requires Sorted(names) && names != []
    ensures forall x | x in Elements(names) && x != names[0] :: Less(names[0], x)
  {
    hide Less;
  }

  lemma TailIsIn(names: seq<string>)
    requires Sorted(names) && names != []
    ensures forall x | x in Elements(names[1..]) :: Less(names[0], x)
  {
    hide Less;
  }

  lemma {:induction false} SortNamesSorts(names: seq<string>)
    requires Distinct(names)
    ensures Sorted(SortNames(names)) && Elements(SortNames(names)) == Elements(names)
  {
    if names != [] {
      var rest := names[1..];
      SortNamesSorts(rest);
      assert names[0] !in rest;
      assert names[0] !in SortNames(rest) by {
        assert names[0] !in Elements(SortNames(rest));
      }
      PlaceSorts(SortNames(rest), names[0]);
      PlaceAdds(SortNames(rest), names[0]);
      assert names == [names[0]] + rest;
    }
  }

  /** A set of names has only one sorted listing. */
  lemma {:induction false} SortedIsUnique(a: seq<string>, b: seq<string>)
    requires Sorted(a) && Sorted(b) && Elements(a) == Elements(b)
    ensures a == b
  {
    EmptyIsEmpty(a);
    EmptyIsEmpty(b);
    if a != [] {
      assert a[0] in Elements(b);
      assert b != [];
      assert b[0] in Elements(a);
      SameHead(a, b);
      SameTail(a, b);
      SortedIsUnique(a[1..], b[1..]);
      assert a == [a[0]] + a[1..] && b == [b[0]] + b[1..];
    }
  }

  lemma EmptyIsEmpty(a: seq<string>)
    ensures a == [] <==> Elements(a) == {}
  {
    if a != [] { assert a[0] in Elements(a); }
  }

  lemma SameHead(a: seq<string>, b: seq<string>)
    requires Sorted(a) && Sorted(b) && a != [] && b != [] && a[0] in b && b[0] in a
    ensures a[0] == b[0]
  {
    LessIsStrict(a[0], b[0]);
    LessIsStrict(b[0], a[0]);
  }

  lemma SameTail(a: seq<string>, b: seq<string>)
    requires Sorted(a) && Sorted(b) && a != [] && b != [] && a[0] == b[0] && Elements(a) == Elements(b)
    ensures Elements(a[1..]) == Elements(b[1..])
  {
    TailSet(a);
    TailSet(b);
  }

  lemma TailSet(a: seq<string>)
    requires Sorted(a) && a != []
    ensures Elements(a[1..]) == Elements(a) - {a[0]}
  {
    forall j | 0 < j < |a|
      ensures a[j] != a[0]
    {
      LessIsStrict(a[0], a[j]);
    }
    assert forall x | x in a && x != a[0] :: x in a[1..];
  }
}
