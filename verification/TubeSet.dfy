/**
 How a poll tests whether a ticket's tube was asked for: sort the names, drop adjacent
 repetitions, search by halving.
 */
module TubeSet {

  /** Go's order on strings. */
  predicate LexLe(a: string, b: string) {
    a == [] || (b != [] && (a[0] < b[0] || (a[0] == b[0] && LexLe(a[1..], b[1..]))))
  }

  predicate LexLess(a: string, b: string) {
    !LexLe(b, a)
  }

  lemma {:induction false} LexTotal(a: string, b: string)
    ensures LexLe(a, b) || LexLe(b, a)
  {
    if a != [] && b != [] { LexTotal(a[1..], b[1..]); }
  }

  lemma {:induction false} LexAntisymmetric(a: string, b: string)
    requires LexLe(a, b) && LexLe(b, a)
    ensures a == b
  {
    if a != [] {
      LexAntisymmetric(a[1..], b[1..]);
      assert a == [a[0]] + a[1..] && b == [b[0]] + b[1..];
    }
  }

  lemma {:induction false} LexTransitive(a: string, b: string, c: string)
    requires LexLe(a, b) && LexLe(b, c)
    ensures LexLe(a, c)
  {
    if a != [] && a[0] == b[0] == c[0] { LexTransitive(a[1..], b[1..], c[1..]); }
  }

  ghost predicate Sorted(names: seq<string>) {
    forall i, j :: 0 <= i < j < |names| ==> LexLe(names[i], names[j])
  }

  ghost predicate StrictlySorted(names: seq<string>) {
    forall i, j :: 0 <= i < j < |names| ==> LexLess(names[i], names[j])
  }

  ghost predicate SameNames(xs: seq<string>, ys: seq<string>) {
    forall x :: x in xs <==> x in ys
  }

  /** slices.Sort on names. */
  method Sort(names: seq<string>) returns (sorted: seq<string>)
    ensures Sorted(sorted) && multiset(sorted) == multiset(names)
  {
    sorted := [];
    for i := 0 to |names|
      invariant Sorted(sorted) && multiset(sorted) == multiset(names[..i])
    {
      sorted := Insert(sorted, names[i]);
      assert names[..i + 1] == names[..i] + [names[i]];
    }
    assert names[..|names|] == names;
  }

  method Insert(sorted: seq<string>, x: string) returns (r: seq<string>)
    requires Sorted(sorted)
    ensures Sorted(r) && multiset(r) == multiset(sorted) + multiset{x}
  {
    var p := 0;
    while p < |sorted| && LexLe(sorted[p], x)
      invariant p <= |sorted|
      invariant forall i :: 0 <= i < p ==> LexLe(sorted[i], x)
    {
      p := p + 1;
    }
    forall j | p <= j < |sorted|
      ensures LexLe(x, sorted[j])
    {
      LexTotal(x, sorted[p]);
      if p < j { LexTransitive(x, sorted[p], sorted[j]); }
    }
    r := sorted[..p] + [x] + sorted[p..];
    InsertedElements(sorted, p, x);
  }

  lemma InsertedElements(names: seq<string>, p: nat, x: string)
    requires p <= |names|
    ensures multiset(names[..p] + [x] + names[p..]) == multiset(names) + multiset{x}
  {
    assert names == names[..p] + names[p..];
  }

  /** slices.Compact: keep the first of every run of equal names. */
  method Compact(names: seq<string>) returns (r: seq<string>)
    requires Sorted(names)
    ensures StrictlySorted(r) && SameNames(r, names)
  {
    r := [];
    for i := 0 to |names|
      invariant StrictlySorted(r) && SameNames(r, names[..i])
      invariant (i == 0) == (r == [])
      invariant i > 0 ==> r[|r| - 1] == names[i - 1]
    {
      if i == 0 || names[i] != names[i - 1] {
        if i > 0 {
          forall k | 0 <= k < |r|
            ensures LexLess(r[k], names[i])
          {
            LastIsLargest(r, k);
            if LexLe(names[i], r[k]) {
              LexTransitive(names[i], r[k], names[i - 1]);
              LexAntisymmetric(names[i], names[i - 1]);
            }
          }
        }
        r := r + [names[i]];
      }
      assert names[..i + 1] == names[..i] + [names[i]];
    }
    assert names[..|names|] == names;
  }

  lemma LastIsLargest(names: seq<string>, k: nat)
    requires StrictlySorted(names) && k < |names|
    ensures LexLe(names[k], names[|names| - 1])
  {
    LexTotal(names[k], names[|names| - 1]);
  }

  /** slices.BinarySearch: whether the target is among the names. */
  method BinarySearch(names: seq<string>, target: string) returns (found: bool)
    requires StrictlySorted(names)
    ensures found <==> target in names
  {
    var i, j := 0, |names|;
    while i < j
      invariant 0 <= i <= j <= |names|
      invariant forall k :: 0 <= k < i ==> LexLess(names[k], target)
      invariant forall k :: j <= k < |names| ==> LexLe(target, names[k])
    {
      var h := (i + j) / 2;
      if LexLess(names[h], target) {
        forall k | 0 <= k <= h
          ensures LexLess(names[k], target)
        {
          if k < h && LexLe(target, names[k]) {
            LexTotal(names[k], names[h]);
            LexTransitive(target, names[k], names[h]);
          }
        }
        i := h + 1;
      } else {
        forall k | h <= k < |names|
          ensures LexLe(target, names[k])
        {
          if h < k {
            LexTotal(names[h], names[k]);
            LexTransitive(target, names[h], names[k]);
          }
        }
        j := h;
      }
    }
    LexTotal(target, target);
    found := i < |names| && names[i] == target;
    if target in names {
      var k :| 0 <= k < |names| && names[k] == target;
      if i < k {
        LexAntisymmetric(target, names[i]);
      }
    }
  }
}
