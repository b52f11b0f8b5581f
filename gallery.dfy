/** The gallery's client side: the filter over saved creations, the
    family-filter buttons and the author drop-down. */
module Gallery {
  import opened Wrappers
  import opened Layers
  import opened Catalog

  /** A saved creation as the gallery sees it, with its parent list already
      parsed. A missing author is `None`. */
  datatype Creation = Creation(name: string, parents: seq<string>, author: Option<string>)

  const Anonymous: string := "Anonymous"
  const AllFamilies: string := "ALL"

  /** `creation.author || 'Anonymous'`: a missing or empty author shows as
      Anonymous. */
  function AuthorOf(c: Creation): (a: string)
    ensures a != ""
    ensures c.author.Some? && c.author.value != "" ==> a == c.author.value
    ensures c.author.None? || c.author.value == "" ==> a == Anonymous
  {
    if c.author.Some? && c.author.value != "" then c.author.value else Anonymous
  }

  /** `monsters.find(m => m.name === name)`: the first monster so named. */
  function FindMonster(monsters: seq<Monster>, name: string): (r: Option<Monster>)
    ensures r.None? <==> forall k :: 0 <= k < |monsters| ==> monsters[k].name != name
    ensures r.Some? ==> (r.value.name == name &&
      exists k :: (0 <= k < |monsters| && monsters[k] == r.value &&
                   forall j :: 0 <= j < k ==> monsters[j].name != name))
  {
    if monsters == [] then None
    else if monsters[0].name == name then Some(monsters[0])
    else
      var r := FindMonster(monsters[1..], name);
      assert forall k :: 1 <= k < |monsters| ==> monsters[k] == monsters[1..][k - 1];
      r
  }

  /** A parent counts for the family filter when the first monster of that
      name belongs to a selected family. */
  predicate ParentInFamilies(monsters: seq<Monster>, parent: string, families: seq<string>) {
    var m := FindMonster(monsters, parent);
    m.Some? && m.value.family in families
  }

  /** The three filters of `filterGallery`: an empty monster or author filter
      lets everything through, and so does "ALL" among the families. */
  predicate Matches(c: Creation, monsters: seq<Monster>, monster: string, author: string,
                    families: seq<string>) {
    (monster == "" || monster in c.parents) &&
    (author == "" || AuthorOf(c) == author) &&
    (AllFamilies in families ||
     exists k :: 0 <= k < |c.parents| && ParentInFamilies(monsters, c.parents[k], families))
  }

  /** The creations that pass the filters, in gallery order. */
  function FilterGallery(creations: seq<Creation>, monsters: seq<Monster>, monster: string,
                         author: string, families: seq<string>): (r: seq<Creation>)
    ensures |r| <= |creations|
    ensures forall c :: c in r <==> c in creations && Matches(c, monsters, monster, author, families)
  {
    if creations == [] then []
    else
      var rest := FilterGallery(creations[1..], monsters, monster, author, families);
      assert forall c :: c in creations <==> c == creations[0] || c in creations[1..];
      if Matches(creations[0], monsters, monster, author, families) then [creations[0]] + rest
      else rest
  }

  /** With the filters reset (no monster, no author, all families), the whole
      gallery is shown, in order. */
  lemma {:induction false} ResetFiltersShowAll(creations: seq<Creation>, monsters: seq<Monster>)
    ensures FilterGallery(creations, monsters, "", "", [AllFamilies]) == creations
  {
    if creations != [] {
      ResetFiltersShowAll(creations[1..], monsters);
      assert [creations[0]] + creations[1..] == creations;
    }
  }

  /** A single creation is kept exactly when it matches. */
  lemma FilterSingle(c: Creation, monsters: seq<Monster>, monster: string, author: string,
                     families: seq<string>)
    ensures FilterGallery([c], monsters, monster, author, families) ==
      if Matches(c, monsters, monster, author, families) then [c] else []
  {
    assert [c][1..] == [];
  }

  /** Filtering distributes over concatenation. Together with FilterSingle,
      this determines the result: the input in its own order, duplicates
      included, with exactly the rejected creations left out. */
  lemma {:induction false} FilterConcat(a: seq<Creation>, b: seq<Creation>, monsters: seq<Monster>,
                                        monster: string, author: string, families: seq<string>)
    ensures FilterGallery(a + b, monsters, monster, author, families) ==
      FilterGallery(a, monsters, monster, author, families) +
      FilterGallery(b, monsters, monster, author, families)
  {
    if a == [] {
      assert a + b == b;
    } else {
      assert (a + b)[0] == a[0] && (a + b)[1..] == a[1..] + b;
      FilterConcat(a[1..], b, monsters, monster, author, families);
    }
  }

  /** The filtered gallery, filtered again with the same settings, is
      unchanged. */
  lemma {:induction false} FilterIdempotent(creations: seq<Creation>, monsters: seq<Monster>,
                                            monster: string, author: string, families: seq<string>)
    ensures var r := FilterGallery(creations, monsters, monster, author, families);
      FilterGallery(r, monsters, monster, author, families) == r
  {
    if creations != [] {
      FilterIdempotent(creations[1..], monsters, monster, author, families);
      var rest := FilterGallery(creations[1..], monsters, monster, author, families);
      if Matches(creations[0], monsters, monster, author, families) {
        assert ([creations[0]] + rest)[1..] == rest;
      }
    }
  }

  /** The code-unit order of JavaScript's default `sort`: a proper prefix
      comes first, otherwise the first differing character decides. */
  predicate StrLess(a: string, b: string) {
    if a == [] then b != []
    else if b == [] then false
    else if a[0] != b[0] then a[0] < b[0]
    else StrLess(a[1..], b[1..])
  }

  lemma {:induction false} StrLessIrreflexive(a: string)
    ensures !StrLess(a, a)
  {
    if a != [] {
      StrLessIrreflexive(a[1..]);
    }
  }

  lemma {:induction false} StrLessTransitive(a: string, b: string, c: string)
    requires StrLess(a, b) && StrLess(b, c)
    ensures StrLess(a, c)
  {
    if a != [] && a[0] == b[0] && b[0] == c[0] {
      StrLessTransitive(a[1..], b[1..], c[1..]);
    }
  }

  lemma {:induction false} StrLessTotal(a: string, b: string)
    requires a != b
    ensures StrLess(a, b) || StrLess(b, a)
  {
    if a != [] && b != [] && a[0] == b[0] {
      assert a == [a[0]] + a[1..] && b == [b[0]] + b[1..];
      StrLessTotal(a[1..], b[1..]);
    }
  }

  /** Strictly ascending, hence without duplicates. */
  predicate StrictlySorted(s: seq<string>) {
    forall i, j :: 0 <= i < j < |s| ==> StrLess(s[i], s[j])
  }

  /** One step of `[...new Set(xs)].sort()`: add x to a strictly sorted
      list unless it is already there. */
  function InsertSorted(s: seq<string>, x: string): (r: seq<string>)
    requires StrictlySorted(s)
    ensures StrictlySorted(r)
    ensures forall y :: y in r <==> y in s || y == x
  {
    if s == [] then [x]
    else if x == s[0] then s
    else if StrLess(x, s[0]) then
      StrLessTransitiveFrom(x, s);
      [x] + s
    else
      StrLessTotal(x, s[0]);
      var rest := InsertSorted(s[1..], x);
      assert forall y :: y in s <==> y == s[0] || y in s[1..];
      assert forall k :: 0 <= k < |rest| ==> StrLess(s[0], rest[k]) by {
        forall k | 0 <= k < |rest| ensures StrLess(s[0], rest[k]) {
          assert rest[k] in rest;
          if rest[k] != x {
            var j :| 0 <= j < |s[1..]| && s[1..][j] == rest[k];
            assert s[j + 1] == rest[k];
          }
        }
      }
      [s[0]] + rest
  }

  /** An element below the head of a sorted list is below all of it. */
  lemma StrLessTransitiveFrom(x: string, s: seq<string>)
    requires StrictlySorted(s) && s != [] && StrLess(x, s[0])
    ensures StrictlySorted([x] + s)
  {
    forall k | 0 <= k < |s| ensures StrLess(x, s[k]) {
      if k > 0 { StrLessTransitive(x, s[0], s[k]); }
    }
  }

  /** The authors of `creations`, with the Anonymous default, as a set built
      in order. */
  function Authors(creations: seq<Creation>): (r: seq<string>)
    ensures StrictlySorted(r)
    ensures forall a :: a in r <==> exists k :: 0 <= k < |creations| && AuthorOf(creations[k]) == a
  {
    if creations == [] then []
    else
      var n := |creations| - 1;
      var r := InsertSorted(Authors(creations[..n]), AuthorOf(creations[n]));
      assert forall k :: 0 <= k < n ==> creations[..n][k] == creations[k];
      r
  }

  lemma {:induction false} StrLessAsymmetric(a: string, b: string)
    ensures StrLess(a, b) ==> !StrLess(b, a)
  {
    if a != [] && b != [] && a[0] == b[0] {
      StrLessAsymmetric(a[1..], b[1..]);
    }
  }

  /** The head of a strictly sorted list is its least element, and the tail
      holds everything else. */
  lemma SortedHead(a: seq<string>)
    requires StrictlySorted(a) && a != []
    ensures forall x :: x in a ==> x == a[0] || StrLess(a[0], x)
    ensures forall x :: x in a[1..] <==> x in a && x != a[0]
  {
    StrLessIrreflexive(a[0]);
    forall x | x in a[1..] ensures StrLess(a[0], x) {
      var k :| 0 <= k < |a[1..]| && a[1..][k] == x;
      assert a[k + 1] == x;
    }
    forall x | x in a && x != a[0] ensures x in a[1..] {
      var k :| 0 <= k < |a| && a[k] == x;
      assert a[1..][k - 1] == x;
    }
  }

  /** Two strictly sorted lists with the same elements are the same list, so
      the author list is THE sorted, duplicate-free list of authors. */
  lemma {:induction false} SortedListUnique(a: seq<string>, b: seq<string>)
    requires StrictlySorted(a) && StrictlySorted(b)
    requires forall x :: x in a <==> x in b
    ensures a == b
  {
    if a != [] {
      assert a[0] in a;
    }
    if b != [] {
      assert b[0] in b;
    }
    if a != [] && b != [] {
      SortedHead(a);
      SortedHead(b);
      StrLessAsymmetric(a[0], b[0]);
      assert a[0] == b[0];
      assert StrictlySorted(a[1..]) && StrictlySorted(b[1..]);
      SortedListUnique(a[1..], b[1..]);
      assert a == [a[0]] + a[1..] && b == [b[0]] + b[1..];
    }
  }

  /** A valid family selection: never empty, and "ALL" only ever alone; no
      family is listed twice. */
  ghost predicate ValidFamilies(s: seq<string>) {
    |s| > 0 && (AllFamilies in s ==> s == [AllFamilies]) && Distinct(s)
  }

  /** `selectedFamilies.filter(f => f !== family)`. */
  function Without(s: seq<string>, family: string): (r: seq<string>)
    ensures forall f :: f in r <==> f in s && f != family
    ensures family !in s ==> r == s
    ensures Distinct(s) ==> Distinct(r)
    ensures Distinct(s) && family in s ==> |r| == |s| - 1
  {
    if s == [] then []
    else
      var rest := Without(s[1..], family);
      assert forall f :: f in s <==> f == s[0] || f in s[1..];
      assert Distinct(s) ==> Distinct(s[1..]) && s[0] !in s[1..] by {
        if Distinct(s) {
          forall k | 1 <= k < |s| ensures s[k] != s[0] { assert s[0] != s[k]; }
        }
      }
      if s[0] == family then rest
      else
        assert Distinct(s) ==> s[0] !in rest;
        assert s == [s[0]] + s[1..];
        [s[0]] + rest
  }

  /** The selection after clicking the button of `family`. */
  function Toggled(s: seq<string>, family: string): (r: seq<string>)
  {
    if family == AllFamilies then [AllFamilies]
    else if AllFamilies in s then [family]
    else if family in s then
      var w := Without(s, family);
      if |w| == 0 then [AllFamilies] else w
    else s + [family]
  }

  /** Each click keeps the selection valid. Clicking "ALL" selects only it;
      clicking another family flips that family alone, and when the last
      family is switched off the selection falls back to "ALL". */
  lemma ToggleFlipsOnlyThatFamily(s: seq<string>, family: string)
    requires ValidFamilies(s)
    ensures ValidFamilies(Toggled(s, family))
    ensures family == AllFamilies ==> Toggled(s, family) == [AllFamilies]
    ensures family != AllFamilies ==>
      (family in Toggled(s, family) <==> family !in s) &&
      (forall g :: g != family && g != AllFamilies ==> (g in Toggled(s, family) <==> g in s)) &&
      (AllFamilies in Toggled(s, family) <==> (family in s && s == [family]))
  {
    var r := Toggled(s, family);
    if family != AllFamilies && AllFamilies !in s && family in s {
      var w := Without(s, family);
      if |w| == 0 {
        assert |s| == 1 && s[0] in s;
        assert s == [family];
      } else {
        assert w[0] in w;
        assert AllFamilies !in w;
        assert s != [family];
      }
    } else if family != AllFamilies && AllFamilies !in s && family !in s {
      assert Distinct(s + [family]) by {
        forall i, j | 0 <= i < j < |s| + 1 ensures (s + [family])[i] != (s + [family])[j] {
          if j == |s| { assert s[i] in s; }
        }
      }
      assert s != [family];
    }
  }

  /** The `selectedFamilies` state of the gallery's family buttons. */
  class FamilyFilter {
    var selectedFamilies: seq<string>

    ghost predicate Valid()
      reads this
    {
      ValidFamilies(selectedFamilies)
    }

    /** Initially only "ALL" is active. */
    constructor ()
      ensures Valid() && selectedFamilies == [AllFamilies]
    {
      selectedFamilies := [AllFamilies];
    }

    /** `toggleFamilyFilter`. */
    method Toggle(family: string)
      requires Valid()
      modifies this
      ensures Valid()
      ensures selectedFamilies == Toggled(old(selectedFamilies), family)
    {
      ToggleFlipsOnlyThatFamily(selectedFamilies, family);
      if family == AllFamilies {
        selectedFamilies := [AllFamilies];
      } else if AllFamilies in selectedFamilies {
        selectedFamilies := [family];
      } else if family in selectedFamilies {
        selectedFamilies := Without(selectedFamilies, family);
        if |selectedFamilies| == 0 {
          selectedFamilies := [AllFamilies];
        }
      } else {
        selectedFamilies := selectedFamilies + [family];
      }
    }

    /** The family part of `resetGalleryFilters`. */
    method Reset()
      modifies this
      ensures Valid() && selectedFamilies == [AllFamilies]
    {
      selectedFamilies := [AllFamilies];
    }
  }
}
