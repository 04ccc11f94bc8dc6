/** Passes 2 and 3 of a delivery: the nodes for all files are replaced by nodes for
    the files that have changed, and addresses are listed once (commands/afd_fui.c). */
module Delivery {
  import opened Text
  import opened DeliveryLists

  // ---------------------------------------------------------------- what has changed

  /** A file of an archive, with the times of it and of its compressed form. */
  datatype DirEntry = DirEntry(file: string, plain: Option<nat>, compressed: Option<nat>)

  /** The directory files and the modification tables of the archives. */
  datatype World = World(dirs: map<string, seq<DirEntry>>, fmt: map<string, seq<(string, nat)>>)

  function TimeIn(fmt: seq<(string, nat)>, file: string): Option<nat>
  {
    if fmt == [] then None else if fmt[0].0 == file then Some(fmt[0].1) else TimeIn(fmt[1..], file)
  }

  predicate UpdatedRaw(w: World, dir: string, file: string, time: Option<nat>)
  {
    time.Some? && !(dir in w.fmt && TimeIn(w.fmt[dir], file) == time)
  }

  /** file_updated_raw */
  method FileUpdatedRaw(w: World, dir: string, file: string, time: Option<nat>) returns (ret: bool)
    ensures ret <==> UpdatedRaw(w, dir, file, time)
  {
    if time.None? {
      return false;
    }
    ret := true;
    if dir in w.fmt {
      var fmt, i, found := w.fmt[dir], 0, false;
      assert fmt[0..] == fmt;
      while i < |fmt| && !found
        invariant 0 <= i <= |fmt|
        invariant found ==> TimeIn(fmt, file).Some? && ret == (TimeIn(fmt, file) != time)
        invariant !found ==> ret && TimeIn(fmt, file) == TimeIn(fmt[i..], file)
        decreases |fmt| - i, !found
      {
        assert fmt[i..][1..] == fmt[i + 1..];
        if fmt[i].0 == file {
          if fmt[i].1 == time.value {
            ret := false;
          }
          found := true;
        }
        i := i + 1;
      }
    }
  }

  predicate Changed(w: World, dir: string, e: DirEntry)
  {
    UpdatedRaw(w, dir, e.file, e.plain) || UpdatedRaw(w, dir, e.file, e.compressed)
  }

  // ---------------------------------------------------------------- pass 2

  /** The list when the node for all files of an archive has been expanded. */
  function Expanded(w: World, xs: seq<Item>, star: Item, entries: seq<DirEntry>): (ys: seq<Item>)
    ensures |ys| >= |xs|
  {
    if entries == [] then xs
    else
      var n := |entries| - 1;
      var t := Expanded(w, xs, star, entries[..n]);
      if Changed(w, star.dir, entries[n]) then WithAddresses(t, star, entries[n].file) else t
  }

  function Opened(w: World, xs: seq<Item>, star: Item): (ys: seq<Item>)
    ensures |ys| >= |xs|
  {
    if star.dir in w.dirs then Expanded(w, xs, star, w.dirs[star.dir]) else xs
  }

  function Without(xs: seq<Item>, i: nat): (ys: seq<Item>)
    requires i < |xs|
    ensures |ys| == |xs| - 1
  {
    xs[..i] + xs[i + 1..]
  }

  /** The list when its last r nodes have been visited too. */
  function Visited(w: World, xs: seq<Item>, r: nat): seq<Item>
    requires r <= |xs|
    decreases r
  {
    if r == 0 then xs
    else
      var x := xs[|xs| - r];
      if !IsStarItem(x) then Visited(w, xs, r - 1)
      else
        var ys := Opened(w, xs, x);
        Visited(w, Without(ys, |ys| - r), r - 1)
  }

  method ExpandStar(list: FileList, w: World, star: Item, ghost tail: seq<Node>)
    requires list.Valid() && Ends(list.nodes, tail)
    modifies list, list.repr
    ensures list.Valid() && list.items == Opened(w, old(list.items), star)
    ensures Ends(list.nodes, tail) && fresh(list.repr - old(list.repr))
  {
    hide Changed, WithAddresses, FileList.Linked, Ends;
    if star.dir in w.dirs {
      var entries, i := w.dirs[star.dir], 0;
      assert entries[..0] == [];
      while i < |entries|
        invariant 0 <= i <= |entries| && list.Valid()
        invariant list.items == Expanded(w, old(list.items), star, entries[..i])
        invariant Ends(list.nodes, tail) && fresh(list.repr - old(list.repr))
      {
        ExpandedStep(w, old(list.items), star, entries, i);
        var modified := FileUpdatedRaw(w, star.dir, entries[i].file, entries[i].plain);
        if !modified {
          modified := FileUpdatedRaw(w, star.dir, entries[i].file, entries[i].compressed);
        }
        ChangedIs(w, star.dir, entries[i]);
        if modified {
          list.AddAddresses(star, entries[i].file, tail);
        }
        i := i + 1;
      }
      assert entries[..i] == entries;
    }
  }

  lemma ChangedIs(w: World, dir: string, e: DirEntry)
    ensures Changed(w, dir, e) <==> UpdatedRaw(w, dir, e.file, e.plain) || UpdatedRaw(w, dir, e.file, e.compressed)
  {
  }

  lemma ExpandedStep(w: World, xs: seq<Item>, star: Item, entries: seq<DirEntry>, i: nat)
    requires i < |entries|
    ensures Expanded(w, xs, star, entries[..i + 1]) ==
            var t := Expanded(w, xs, star, entries[..i]);
            if Changed(w, star.dir, entries[i]) then WithAddresses(t, star, entries[i].file) else t
  {
    hide Changed, WithAddresses;
    assert entries[..i + 1][..i] == entries[..i];
  }

  /** The body of the loop over the nodes. */
  method VisitNode(list: FileList, w: World, ptr: Node, ghost tail: seq<Node>) returns (next: Node?)
    requires list.Valid() && tail != [] && Ends(list.nodes, tail) && tail[0] == ptr
    modifies list, list.repr
    ensures list.Valid() && fresh(list.repr - old(list.repr))
    ensures Ends(list.nodes, tail[1..]) && next == At(tail, 1)
    ensures |list.items| >= |tail| - 1
    ensures |old(list.items)| >= |tail| && Visited(w, old(list.items), |tail|) == Visited(w, list.items, |tail| - 1)
  {
    hide Opened, WithAddresses, Ends, Visited, FileList.Linked, Without, IsStarItem, At;
    EndsAt(list.nodes, tail);
    NodeNext(list, |list.nodes| - |tail|);
    next := ptr.next;
    VisitedStep(w, list.items, |tail|);
    if IsStarItem(ptr.Value()) {
      ReplaceStar(list, w, ptr, tail);
    }
  }

  method ReplaceStar(list: FileList, w: World, ptr: Node, ghost tail: seq<Node>)
    requires list.Valid() && tail != [] && Ends(list.nodes, tail) && tail[0] == ptr
    modifies list, list.repr
    ensures list.Valid() && fresh(list.repr - old(list.repr)) && Ends(list.nodes, tail[1..])
    ensures var ys := Opened(w, old(list.items), old(ptr.Value()));
            |ys| >= |tail| && list.items == Without(ys, |ys| - |tail|)
  {
    hide Opened, WithAddresses, Ends, FileList.Linked, At;
    ExpandStar(list, w, ptr.Value(), tail);
    EndsAt(list.nodes, tail);
    list.Unlink(ptr, |list.nodes| - |tail|);
  }

  lemma NodeNext(list: FileList, k: nat)
    requires list.Valid() && k < |list.nodes|
    ensures list.nodes[k].next == At(list.nodes, k + 1) && list.nodes[k].Value() == list.items[k]
  {
  }

  lemma VisitedStep(w: World, xs: seq<Item>, r: nat)
    requires 0 < r <= |xs|
    ensures var x := xs[|xs| - r];
            Visited(w, xs, r) == if !IsStarItem(x) then Visited(w, xs, r - 1)
                                 else Visited(w, Without(Opened(w, xs, x), |Opened(w, xs, x)| - r), r - 1)
  {
  }

  /** afd_fui_deliver_pass2 */
  method Pass2(list: FileList, w: World)
    requires list.Valid()
    modifies list, list.repr
    ensures list.Valid() && list.items == Visited(w, old(list.items), |old(list.items)|)
    ensures fresh(list.repr - old(list.repr))
  {
    hide Visited, FileList.Linked, Ends;
    var ptr := list.head;
    ghost var tail := list.nodes;
    StartNode(list);
    while ptr != null
      invariant list.Valid() && Ends(list.nodes, tail) && ptr == At(tail, 0) && |tail| <= |list.items|
      invariant Visited(w, old(list.items), |old(list.items)|) == Visited(w, list.items, |tail|)
      invariant fresh(list.repr - old(list.repr))
      decreases |tail|
    {
      ptr := VisitNode(list, w, ptr, tail);
      tail := tail[1..];
    }
    VisitedNone(w, list.items);
  }

  lemma StartNode(list: FileList)
    requires list.Valid()
    ensures list.head == At(list.nodes, 0) && Ends(list.nodes, list.nodes)
  {
  }

  lemma VisitedNone(w: World, xs: seq<Item>)
    ensures Visited(w, xs, 0) == xs
  {
  }
}
