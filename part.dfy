/** A part placed on the workspace, and the placement cap on part names. */
module PartModel {
  import opened Grid
  import opened Layers

  /** One placed part. Its provenance, image and native size never change;
      position, size, scale, rotation and flips are updated in place by the
      workspace's handlers, through whichever reference the workspace holds. */
  class Part {
    const id: int
    const name: string
    const monster: string
    const imageKey: string
    const originalWidth: real
    const originalHeight: real
    var x: real
    var y: real
    var width: real
    var height: real
    var scale: real
    var rotation: int
    var flipHorizontal: bool
    var flipVertical: bool

    /** The displayed size is always the native size times the scale. */
    ghost predicate Valid()
      reads this
    {
      width == originalWidth * scale && height == originalHeight * scale
    }

    /** The record built once the part's image has decoded: native size times
        the 10-unit zoom, scale 1, no rotation, no flip. */
    constructor (id: int, name: string, monster: string, imageKey: string,
                 x: real, y: real, imageWidth: nat, imageHeight: nat)
      ensures Valid()
      ensures this.id == id && this.name == name && this.monster == monster
      ensures this.imageKey == imageKey && this.x == x && this.y == y
      ensures originalWidth == imageWidth as real * GridUnit
      ensures originalHeight == imageHeight as real * GridUnit
      ensures width == originalWidth && height == originalHeight
      ensures scale == 1.0 && rotation == 0
      ensures !flipHorizontal && !flipVertical
    {
      this.id := id;
      this.name := name;
      this.monster := monster;
      this.imageKey := imageKey;
      this.x := x;
      this.y := y;
      originalWidth := imageWidth as real * GridUnit;
      originalHeight := imageHeight as real * GridUnit;
      width := imageWidth as real * GridUnit;
      height := imageHeight as real * GridUnit;
      scale := 1.0;
      rotation := 0;
      flipHorizontal := false;
      flipVertical := false;
    }

    /** The inclusive hit box `[x, x + width] x [y, y + height]`. */
    predicate Contains(px: real, py: real)
      reads this
    {
      x <= px <= x + width && y <= py <= y + height
    }
  }

  /** How many placed parts carry the given name (the `counts` fold). */
  function CountName(parts: seq<Part>, name: string): (n: nat)
    ensures n <= |parts|
  {
    if parts == [] then 0
    else CountName(parts[..|parts| - 1], name)
         + (if parts[|parts| - 1].name == name then 1 else 0)
  }

  /** The properties every plain object inherits from `Object.prototype`.
      For these keys `counts[partName]` in a fresh `{}` is already a
      function or an object, never a number. */
  const InheritedKeys: set<string> := {
    "constructor", "hasOwnProperty", "isPrototypeOf", "propertyIsEnumerable",
    "toLocaleString", "toString", "valueOf", "__proto__",
    "__defineGetter__", "__defineSetter__", "__lookupGetter__", "__lookupSetter__"
  }

  /** `(counts[partName] || 0) < 2`. For an ordinary name the lookup is the
      count of placed parts with that name. For an inherited key it is the
      inherited function or object (or, once `counts[part.name] + 1` has run,
      a string); it converts to NaN, so the comparison is false. */
  function CanAddPart(parts: seq<Part>, partName: string, monsterName: string): (r: bool)
    ensures partName in InheritedKeys ==> !r
    ensures partName !in InheritedKeys ==> (r <==> |NameIndices(parts, partName)| < 2)
  {
    CountNameIsIndexCount(parts, partName);
    partName !in InheritedKeys && CountName(parts, partName) < 2
  }

  /** A part whose name is an inherited key can never be placed through the
      catalog, whatever is on the workspace. */
  lemma InheritedNameNeverAddable(parts: seq<Part>, monster: string)
    ensures !CanAddPart(parts, "constructor", monster)
    ensures !CanAddPart(parts, "toString", monster)
    ensures !CanAddPart(parts, "__proto__", monster)
  {
  }

  /** The number of indices holding the name: an independent account of
      CountName. */
  ghost function NameIndices(parts: seq<Part>, name: string): set<nat>
  {
    set i: nat | i < |parts| && parts[i].name == name
  }

  lemma {:induction false} CountNameIsIndexCount(parts: seq<Part>, name: string)
    ensures CountName(parts, name) == |NameIndices(parts, name)|
  {
    if parts != [] {
      var init := parts[..|parts| - 1];
      CountNameIsIndexCount(init, name);
      var last := |parts| - 1;
      if parts[last].name == name {
        assert NameIndices(parts, name) == NameIndices(init, name) + {last};
      } else {
        assert NameIndices(parts, name) == NameIndices(init, name);
      }
    }
  }

  /** Eligibility is a function of the name alone. */
  lemma CanAddIgnoresMonster(parts: seq<Part>, partName: string, m1: string, m2: string)
    ensures CanAddPart(parts, partName, m1) == CanAddPart(parts, partName, m2)
  {
  }

  lemma {:induction false} CountConcat(a: seq<Part>, b: seq<Part>, name: string)
    ensures CountName(a + b, name) == CountName(a, name) + CountName(b, name)
  {
    if b != [] {
      var b' := b[..|b| - 1];
      assert (a + b)[..|a + b| - 1] == a + b';
      CountConcat(a, b', name);
    } else {
      assert a + b == a;
    }
  }

  lemma CountSingle(p: Part, name: string)
    ensures CountName([p], name) == if p.name == name then 1 else 0
  {
    assert [p][..0] == [];
  }

  /** Appending a part raises the count of its own name by one and leaves
      every other name's count alone. */
  lemma CountAppend(s: seq<Part>, p: Part, name: string)
    ensures CountName(s + [p], name) == CountName(s, name) + (if p.name == name then 1 else 0)
  {
    assert (s + [p])[..|s|] == s;
  }

  /** Removing one instance lowers its name's count by one. */
  lemma CountRemoveAt(s: seq<Part>, i: nat, name: string)
    requires i < |s|
    ensures CountName(RemoveAt(s, i), name) == CountName(s, name) - (if s[i].name == name then 1 else 0)
  {
    RemoveAtSplit(s, i);
    CountConcat(s[..i], s[i + 1..], name);
    CountConcat(s[..i] + [s[i]], s[i + 1..], name);
    CountConcat(s[..i], [s[i]], name);
    CountSingle(s[i], name);
  }

  /** Once a name has reached the cap of two, removing one of its parts
      makes it addable again. */
  lemma RemoveReopens(s: seq<Part>, i: nat, monster: string)
    requires i < |s| && CountName(s, s[i].name) <= 2
    ensures CanAddPart(RemoveAt(s, i), s[i].name, monster) <==> s[i].name !in InheritedKeys
  {
    CountRemoveAt(s, i, s[i].name);
  }

  /** Rearranging the layers never changes any name's count. */
  lemma CountSwapNeighbours(s: seq<Part>, i: nat, name: string)
    requires i + 1 < |s|
    ensures CountName(Swap(s, i, i + 1), name) == CountName(s, name)
  {
    var a, b, c := s[..i], [s[i], s[i + 1]], s[i + 2..];
    var b' := [s[i + 1], s[i]];
    assert s == a + b + c;
    assert Swap(s, i, i + 1) == a + b' + c;
    CountConcat(a + b, c, name);
    CountConcat(a, b, name);
    CountConcat(a + b', c, name);
    CountConcat(a, b', name);
    CountConcat([s[i]], [s[i + 1]], name);
    CountConcat([s[i + 1]], [s[i]], name);
    assert [s[i]] + [s[i + 1]] == b;
    assert [s[i + 1]] + [s[i]] == b';
  }

  lemma CountToFront(s: seq<Part>, i: nat, name: string)
    requires i < |s|
    ensures CountName(ToFront(s, i), name) == CountName(s, name)
  {
    CountRemoveAt(s, i, name);
    CountAppend(RemoveAt(s, i), s[i], name);
  }

  lemma CountToBack(s: seq<Part>, i: nat, name: string)
    requires i < |s|
    ensures CountName(ToBack(s, i), name) == CountName(s, name)
  {
    CountRemoveAt(s, i, name);
    CountConcat([s[i]], RemoveAt(s, i), name);
    CountSingle(s[i], name);
  }

  /** `(rotation + degrees + 360) % 360` with JavaScript's remainder. */
  function Rotated(rotation: int, degrees: int): (r: int)
    ensures rotation + degrees + 360 >= 0 ==> 0 <= r < 360
    ensures (rotation + degrees - r) % 360 == 0
  {
    JsRem(rotation + degrees + 360, 360)
  }

  /** A normalised angle stays normalised under any turn of at least one full
      turn backwards. */
  lemma RotatedStaysNormal(rotation: int, degrees: int)
    requires 0 <= rotation < 360 && degrees >= -360
    ensures 0 <= Rotated(rotation, degrees) < 360
  {
  }

  /** Below that, the truncating remainder yields a negative angle. */
  lemma RotatedCanGoNegative()
    ensures Rotated(0, -450) == -90
  {
    assert JsQuot(-90, 360) == 0;
  }
}
