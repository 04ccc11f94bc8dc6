/** The lists of files to deliver: doubly linked nodes that are pushed at the head,
    searched and unlinked while the list is walked (commands/afd_fui.c). */
module DeliveryLists {
  /** The value of a node; addresses are separated by blanks, with one behind the last. */
  datatype Item = Item(archive: string, dir: string, file: string, addresses: string)

  predicate IsStarItem(x: Item) { x.file != "" && x.file[0] == '*' }

  /** APPEND_TO_STR on the first item for a file. */
  function FindItem(xs: seq<Item>, file: string): (i: nat)
    ensures i <= |xs|
    ensures i < |xs| ==> xs[i].file == file
    ensures forall j :: 0 <= j < i ==> xs[j].file != file
  {
    if xs == [] || xs[0].file == file then 0 else 1 + FindItem(xs[1..], file)
  }

  class Node {
    var archive: string
    var dir: string
    var file: string
    var addresses: string
    var prev: Node?
    var next: Node?

    constructor (archive: string, dir: string, file: string, addresses: string)
      ensures Value() == Item(archive, dir, file, addresses) && prev == null && next == null
    {
      this.archive, this.dir, this.file, this.addresses := archive, dir, file, addresses;
      prev, next := null, null;
    }

    function Value(): Item
      reads this
    {
      Item(archive, dir, file, addresses)
    }
  }

  function At(ns: seq<Node>, i: int): Node? { if 0 <= i < |ns| then ns[i] else null }

  predicate Distinct(ns: seq<Node>) { forall i, j :: 0 <= i < j < |ns| ==> ns[i] != ns[j] }

  class FileList {
    var head: Node?
    ghost var nodes: seq<Node>
    ghost var items: seq<Item>
    ghost var repr: set<Node>

    /** The links follow the nodes in both directions. */
    ghost predicate Linked()
      reads this`head, this`nodes, this`repr, repr
    {
      && (forall i :: 0 <= i < |nodes| ==> nodes[i] in repr)
      && Distinct(nodes)
      && head == At(nodes, 0)
      && (forall i {:trigger nodes[i].next} :: 0 <= i < |nodes| ==> nodes[i].next == At(nodes, i + 1))
      && (forall i {:trigger nodes[i].prev} :: 0 <= i < |nodes| ==> nodes[i].prev == At(nodes, i - 1))
    }

    /** The nodes hold the items. */
    ghost predicate Valid()
      reads this, repr
    {
      && Linked()
      && |items| == |nodes|
      && forall i :: 0 <= i < |nodes| ==> nodes[i].Value() == items[i]
    }

    constructor ()
      ensures Valid() && nodes == [] && items == [] && repr == {}
    {
      head, nodes, items, repr := null, [], [], {};
    }

    /** Put a new node in front. */
    method Push(archive: string, dir: string, file: string, addresses: string)
      requires Valid()
      modifies this, repr
      ensures fresh(repr - old(repr))
      ensures Valid() && |nodes| == |old(nodes)| + 1 && nodes[1..] == old(nodes) && fresh(nodes[0])
      ensures items == [Item(archive, dir, file, addresses)] + old(items)
    {
      var p := new Node(archive, dir, file, addresses);
      LinkFront(p);
    }

    method LinkFront(p: Node)
      requires Valid() && p !in repr && p.prev == null
      modifies this, repr, p`next
      ensures repr == old(repr) + {p}
      ensures Valid() && nodes == [p] + old(nodes) && items == [p.Value()] + old(items)
      ensures p.Value() == old(p.Value())
    {
      p.next := head;
      if head != null {
        head.prev := p;
      }
      head := p;
      nodes, items, repr := [p] + nodes, [p.Value()] + items, repr + {p};
    }

    method UnlinkPointers(p: Node, ghost i: nat)
      requires Linked() && i < |nodes| && nodes[i] == p
      modifies this`head, this`nodes, repr
      ensures Linked() && nodes == old(nodes)[..i] + old(nodes)[i + 1..]
      ensures forall n :: n in old(nodes) ==> n.Value() == old(n.Value())
    {
      if p.prev != null {
        p.prev.next := p.next;
      }
      if p.next != null {
        p.next.prev := p.prev;
      }
      if p == head {
        head := p.next;
      }
      nodes := nodes[..i] + nodes[i + 1..];
    }

    /** Take a node out. */
    method Unlink(p: Node, ghost i: nat)
      requires Valid() && i < |nodes| && nodes[i] == p
      modifies this, repr
      ensures repr == old(repr)
      ensures Valid() && nodes == old(nodes)[..i] + old(nodes)[i + 1..]
      ensures items == old(items)[..i] + old(items)[i + 1..]
    {
      hide Linked;
      UnlinkPointers(p, i);
      items := items[..i] + items[i + 1..];
    }

    /** The first node for a file. */
    method Find(file: string) returns (p: Node?, ghost i: nat)
      requires Valid()
      ensures i == FindItem(items, file)
      ensures if i == |nodes| then p == null else i < |nodes| && p == nodes[i]
    {
      p, i := head, 0;
      while p != null && p.file != file
        invariant i <= |nodes| && p == (if i < |nodes| then nodes[i] else null)
        invariant forall j :: 0 <= j < i ==> items[j].file != file
        decreases |nodes| - i
      {
        p := p.next;
        i := i + 1;
      }
      FirstItem(items, file, i);
    }

    /** APPEND_TO_STR on the first node */
    method AppendFirst(text: string)
      requires Valid() && nodes != []
      modifies this, repr
      ensures Valid() && repr == old(repr)
      ensures items == old(items)[0 := old(items)[0].(addresses := old(items)[0].addresses + text)]
    {
      head.addresses := head.addresses + text;
      items := items[0 := head.Value()];
    }

    /** Give a file some addresses more; a file that has no node gets one in front. */
    method AddAddresses(star: Item, file: string, ghost tail: seq<Node>)
      requires Valid() && Ends(nodes, tail)
      modifies this, repr
      ensures fresh(repr - old(repr))
      ensures Valid() && items == WithAddresses(old(items), star, file)
      ensures Ends(nodes, tail)
    {
      var p, i := Find(file);
      if p != null {
        p.addresses := p.addresses + star.addresses;
        items := items[i := p.Value()];
      } else {
        Push(star.archive, star.dir, file, star.addresses);
        EndsMore(nodes, tail);
      }
    }
  }

  /** The list ends with these nodes. */
  ghost predicate Ends(ns: seq<Node>, tail: seq<Node>)
  {
    |tail| <= |ns| && ns[|ns| - |tail|..] == tail
  }

  lemma EndsMore(ns: seq<Node>, tail: seq<Node>)
    requires ns != [] && Ends(ns[1..], tail)
    ensures Ends(ns, tail)
  {
    assert ns[|ns| - |tail|..] == ns[1..][|ns| - 1 - |tail|..];
  }

  lemma EndsAt(ns: seq<Node>, tail: seq<Node>)
    requires Ends(ns, tail) && tail != []
    ensures var k := |ns| - |tail|;
            && 0 <= k < |ns| && ns[k] == tail[0] && At(ns, k + 1) == At(tail, 1)
            && Ends(ns[..k] + ns[k + 1..], tail[1..]) && Ends(ns, tail[1..])
  {
    var k := |ns| - |tail|;
    assert ns[k] == ns[k..][0];
    if k + 1 < |ns| {
      assert ns[k + 1] == ns[k..][1];
    }
    assert ns[k + 1..] == tail[1..];
  }

  lemma FirstItem(xs: seq<Item>, file: string, i: nat)
    requires i <= |xs|
    requires i < |xs| ==> xs[i].file == file
    requires forall j :: 0 <= j < i ==> xs[j].file != file
    ensures FindItem(xs, file) == i
  {
  }

  function WithAddresses(xs: seq<Item>, star: Item, file: string): (ys: seq<Item>)
    ensures |ys| >= |xs|
  {
    var i := FindItem(xs, file);
    if i < |xs| then xs[i := xs[i].(addresses := xs[i].addresses + star.addresses)]
    else [Item(star.archive, star.dir, file, star.addresses)] + xs
  }
}
