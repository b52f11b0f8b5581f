/** The paint order of `redrawWorkspace`, abstracted from the canvas: which
    part images are drawn, in which order, and where the selection
    highlight goes. */
module Render {
  import opened Wrappers
  import opened PartModel

  /** Draw the image of the part at an index, or stroke that part's
      unrotated box as the selection highlight. */
  datatype PaintOp = DrawPart(index: nat) | Highlight(index: nat)

  /** Parts are painted back to front; a part whose image has not decoded
      yet is skipped; the highlight follows the drawing of the part whose id
      is the selected part's. */
  function PaintList(parts: seq<Part>, selectedId: Option<int>, decoded: set<string>): (r: seq<PaintOp>)
    ensures forall k :: 0 <= k < |r| ==> r[k].index < |parts|
    ensures forall a, b :: 0 <= a < b < |r| ==>
      r[a].index < r[b].index || (r[a].index == r[b].index && r[a].DrawPart? && r[b].Highlight?)
  {
    if parts == [] then []
    else
      var n := |parts| - 1;
      PaintList(parts[..n], selectedId, decoded) + PartOps(n, parts[n], selectedId, decoded)
  }

  /** The operations for the part at index n: none until its image has
      decoded, then the drawing, followed by the highlight when it is the
      selected part. */
  function PartOps(n: nat, p: Part, selectedId: Option<int>, decoded: set<string>): (r: seq<PaintOp>)
    ensures forall k :: 0 <= k < |r| ==> r[k].index == n
    ensures DrawPart(n) in r <==> p.imageKey in decoded
    ensures Highlight(n) in r <==> p.imageKey in decoded && selectedId == Some(p.id)
  {
    if p.imageKey !in decoded then []
    else if selectedId == Some(p.id) then [DrawPart(n), Highlight(n)]
    else [DrawPart(n)]
  }

  /** Exactly the decoded parts are drawn, and only the selected one, if
      decoded, is highlighted. */
  lemma {:induction false} PaintListMembers(parts: seq<Part>, selectedId: Option<int>, decoded: set<string>, i: nat)
    requires i < |parts|
    ensures var r := PaintList(parts, selectedId, decoded);
      (DrawPart(i) in r <==> parts[i].imageKey in decoded) &&
      (Highlight(i) in r <==> parts[i].imageKey in decoded && selectedId == Some(parts[i].id))
  {
    var n := |parts| - 1;
    var front := PaintList(parts[..n], selectedId, decoded);
    var tail := PartOps(n, parts[n], selectedId, decoded);
    assert PaintList(parts, selectedId, decoded) == front + tail;
    if i < n {
      PaintListMembers(parts[..n], selectedId, decoded, i);
      assert DrawPart(i) !in tail && Highlight(i) !in tail;
    } else {
      assert DrawPart(i) !in front && Highlight(i) !in front;
    }
  }

  /** Every drawn part is decoded, every decoded part is drawn, and the
      highlight goes exactly to the decoded parts carrying the selected id. */
  lemma PaintListAllMembers(parts: seq<Part>, selectedId: Option<int>, decoded: set<string>)
    ensures var r := PaintList(parts, selectedId, decoded);
      (forall i :: 0 <= i < |parts| ==> (DrawPart(i) in r <==> parts[i].imageKey in decoded)) &&
      (forall i :: 0 <= i < |parts| ==>
         (Highlight(i) in r <==> parts[i].imageKey in decoded && selectedId == Some(parts[i].id)))
  {
    forall i | 0 <= i < |parts| {
      PaintListMembers(parts, selectedId, decoded, i);
    }
  }

  /** With nothing selected, nothing is highlighted. */
  lemma {:induction false} NoSelectionNoHighlight(parts: seq<Part>, decoded: set<string>)
    ensures forall op :: op in PaintList(parts, None, decoded) ==> op.DrawPart?
  {
    if parts != [] {
      var n := |parts| - 1;
      var front := PaintList(parts[..n], None, decoded);
      var tail := PartOps(n, parts[n], None, decoded);
      NoSelectionNoHighlight(parts[..n], decoded);
      var r := front + tail;
      assert PaintList(parts, None, decoded) == r;
      forall k | 0 <= k < |r| ensures r[k].DrawPart? {
        if k >= |front| {
          var op := tail[k - |front|];
          assert r[k] == op && op in tail && op.index == n;
          assert Highlight(n) !in tail;
          assert op.DrawPart?;
        } else {
          assert r[k] == front[k] && front[k] in front;
        }
      }
    }
  }
}
