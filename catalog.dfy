/** The part catalog: which parts of the two chosen monsters are offered,
    and which of them are disabled by the placement cap. */
module Catalog {
  import opened Wrappers
  import opened PartModel

  /** One named part of a monster, with the key of its auto-cropped image. */
  datatype PartSource = PartSource(name: string, imageKey: string)

  /** A base monster as the catalog sees it; `parts` lists the entries of its
      parsed parts object (empty when it has none). */
  datatype Monster = Monster(id: string, name: string, family: string, parts: seq<PartSource>)

  /** One row of a parts panel. Disabled rows are neither draggable nor
      clickable, and their tooltip says why. */
  datatype Entry = Entry(partName: string, imageKey: string, monster: string,
                         enabled: bool, title: string)

  const LimitSuffix: string := " - Limit reached"

  /** How many of the two monster slots are filled. */
  function SelectedCount(slot1: Option<Monster>, slot2: Option<Monster>): (n: nat)
    ensures n <= 2
    ensures n == 2 <==> slot1.Some? && slot2.Some?
    ensures n == 0 <==> slot1.None? && slot2.None?
  {
    (if slot1.Some? then 1 else 0) + (if slot2.Some? then 1 else 0)
  }

  /** The row built for one part: its name, image and monster, enabled
      exactly when the cap check passes, with the "Limit reached" tooltip
      otherwise. */
  function EntryFor(placed: seq<Part>, src: PartSource, monsterName: string): (e: Entry)
    ensures e.partName == src.name && e.imageKey == src.imageKey && e.monster == monsterName
    ensures e.enabled <==> src.name !in InheritedKeys && CountName(placed, src.name) < 2
    ensures e.title == src.name + (if e.enabled then "" else LimitSuffix)
  {
    assert src.name + "" == src.name;
    var canAdd := CanAddPart(placed, src.name, monsterName);
    Entry(src.name, src.imageKey, monsterName, canAdd,
          if canAdd then src.name else src.name + LimitSuffix)
  }

  function EntriesFor(placed: seq<Part>, m: Monster): (r: seq<Entry>)
    ensures |r| == |m.parts|
    ensures forall k :: 0 <= k < |r| ==> r[k] == EntryFor(placed, m.parts[k], m.name)
  {
    seq(|m.parts|, k requires 0 <= k < |m.parts| => EntryFor(placed, m.parts[k], m.name))
  }

  /** `updateAvailableParts`: nothing until both slots are filled; then every
      part of monster 1 followed by every part of monster 2. */
  function AvailableParts(slot1: Option<Monster>, slot2: Option<Monster>, placed: seq<Part>): (r: seq<Entry>)
    ensures SelectedCount(slot1, slot2) < 2 ==> r == []
  {
    if SelectedCount(slot1, slot2) < 2 then []
    else EntriesFor(placed, slot1.value) + EntriesFor(placed, slot2.value)
  }

  /** With both monsters chosen, every part of each is listed, in order,
      attributed to its monster. */
  lemma AvailableListsEveryPart(m1: Monster, m2: Monster, placed: seq<Part>)
    ensures var r := AvailableParts(Some(m1), Some(m2), placed);
      |r| == |m1.parts| + |m2.parts| &&
      (forall k :: 0 <= k < |m1.parts| ==>
         r[k].partName == m1.parts[k].name && r[k].imageKey == m1.parts[k].imageKey &&
         r[k].monster == m1.name) &&
      (forall k :: 0 <= k < |m2.parts| ==>
         r[|m1.parts| + k].partName == m2.parts[k].name &&
         r[|m1.parts| + k].imageKey == m2.parts[k].imageKey &&
         r[|m1.parts| + k].monster == m2.name)
  {
    var r := AvailableParts(Some(m1), Some(m2), placed);
    var a, b := EntriesFor(placed, m1), EntriesFor(placed, m2);
    assert r == a + b;
    forall k | 0 <= k < |m2.parts|
      ensures r[|m1.parts| + k] == b[k]
    {
    }
  }

  /** An entry is enabled exactly when its name is not an inherited key and
      fewer than two placed parts share it, and exactly the disabled ones
      carry the "Limit reached" tooltip. */
  lemma EntryEnabledIffUnderCap(slot1: Option<Monster>, slot2: Option<Monster>, placed: seq<Part>, k: nat)
    requires k < |AvailableParts(slot1, slot2, placed)|
    ensures var e := AvailableParts(slot1, slot2, placed)[k];
      (e.enabled <==> e.partName !in InheritedKeys && CountName(placed, e.partName) < 2) &&
      (e.enabled ==> e.title == e.partName) &&
      (!e.enabled ==> e.title == e.partName + LimitSuffix)
  {
    var a, b := EntriesFor(placed, slot1.value), EntriesFor(placed, slot2.value);
    if k >= |a| {
      assert AvailableParts(slot1, slot2, placed)[k] == b[k - |a|];
    }
  }
}
