/** What the second pass of a delivery does to the addresses of each file. */
module DeliveryLaws {
  import opened DeliveryLists
  import opened Delivery

  /** The addresses a file is delivered to. */
  function AddressesOf(xs: seq<Item>, file: string): string
  {
    var i := FindItem(xs, file);
    if i < |xs| then xs[i].addresses else ""
  }

  predicate StarName(f: string) { f != "" && f[0] == '*' }

  ghost predicate NoStarNames(w: World)
  {
    forall d, i :: d in w.dirs && 0 <= i < |w.dirs[d]| ==> !StarName(w.dirs[d][i].file)
  }

  /** What the node for all files of an archive gives to a file. */
  function Share(w: World, star: Item, entries: seq<DirEntry>, file: string): string
  {
    if entries == [] then ""
    else
      var e := entries[|entries| - 1];
      Share(w, star, entries[..|entries| - 1], file) +
      if e.file == file && Changed(w, star.dir, e) then star.addresses else ""
  }

  function StarShare(w: World, x: Item, file: string): string
  {
    if IsStarItem(x) && x.dir in w.dirs then Share(w, x, w.dirs[x.dir], file) else ""
  }

  function Shares(w: World, xs: seq<Item>, file: string): string
  {
    if xs == [] then "" else StarShare(w, xs[0], file) + Shares(w, xs[1..], file)
  }

  // ---------------------------------------------------------------- one addition

  lemma ReplacedOf(xs: seq<Item>, i: nat, more: string, file: string)
    requires i < |xs| && FindItem(xs, xs[i].file) == i
    ensures AddressesOf(xs[i := xs[i].(addresses := xs[i].addresses + more)], file) ==
            AddressesOf(xs, file) + if file == xs[i].file then more else ""
  {
    var ys, k := xs[i := xs[i].(addresses := xs[i].addresses + more)], FindItem(xs, file);
    forall j | 0 <= j < |xs| ensures ys[j].file == xs[j].file {
    }
    FirstItem(ys, file, k);
  }

  ghost predicate NoneFor(xs: seq<Item>, file: string) { forall j :: 0 <= j < |xs| ==> xs[j].file != file }

  lemma NotFound(xs: seq<Item>, file: string)
    ensures FindItem(xs, file) == |xs| <==> NoneFor(xs, file)
  {
    if NoneFor(xs, file) {
      FirstItem(xs, file, |xs|);
    }
  }

  lemma FindInPushed(x: Item, xs: seq<Item>, file: string)
    ensures FindItem([x] + xs, file) == if x.file == file then 0 else 1 + FindItem(xs, file)
  {
    assert ([x] + xs)[1..] == xs;
  }

  lemma PushedOf(xs: seq<Item>, x: Item, file: string)
    requires NoneFor(xs, x.file)
    ensures AddressesOf([x] + xs, file) == AddressesOf(xs, file) + if file == x.file then x.addresses else ""
  {
    hide FindItem, NoneFor;
    FindInPushed(x, xs, file);
    NotFound(xs, x.file);
    assert AddressesOf(xs, file) + "" == AddressesOf(xs, file);
  }

  lemma WithAddressesOf(xs: seq<Item>, star: Item, g: string, file: string)
    ensures AddressesOf(WithAddresses(xs, star, g), file) ==
            AddressesOf(xs, file) + if file == g then star.addresses else ""
  {
    hide FindItem, AddressesOf;
    var i := FindItem(xs, g);
    if i < |xs| {
      ReplacedOf(xs, i, star.addresses, file);
    } else {
      NotFound(xs, g);
      PushedOf(xs, Item(star.archive, star.dir, g, star.addresses), file);
    }
  }

  /** The items keep their files, and the nodes for all files keep everything. */
  ghost predicate SameStars(a: seq<Item>, b: seq<Item>)
  {
    |a| == |b| && forall i :: 0 <= i < |a| ==> a[i].file == b[i].file && (IsStarItem(a[i]) ==> a[i] == b[i])
  }

  ghost predicate NoStars(xs: seq<Item>) { forall i :: 0 <= i < |xs| ==> !IsStarItem(xs[i]) }

  /** No two items for one file, but for the nodes for all files. */
  ghost predicate DistinctFiles(xs: seq<Item>)
  {
    forall i, j :: 0 <= i < j < |xs| && xs[i].file == xs[j].file ==> IsStarItem(xs[i])
  }

  lemma SliceStars(a: seq<Item>, b: seq<Item>, lo: nat, hi: nat)
    requires SameStars(a, b) && lo <= hi <= |a|
    ensures SameStars(a[lo..hi], b[lo..hi])
  {
    hide IsStarItem;
  }

  lemma StarsByFile(a: seq<Item>, b: seq<Item>)
    requires SameStars(a, b)
    ensures NoStars(b) ==> NoStars(a)
    ensures DistinctFiles(b) ==> DistinctFiles(a)
  {
    forall i | 0 <= i < |a| ensures IsStarItem(a[i]) <==> IsStarItem(b[i]) {
    }
  }

  /** What an addition, or several, may do to a list whose last r items are still
      to be visited. */
  ghost predicate Grown(xs: seq<Item>, ys: seq<Item>, r: nat)
    requires r <= |xs|
  {
    && |ys| >= |xs|
    && SameStars(ys[|ys| - r..], xs[|xs| - r..])
    && (NoStars(xs[..|xs| - r]) ==> NoStars(ys[..|ys| - r]))
    && (DistinctFiles(xs) ==> DistinctFiles(ys))
  }

  lemma SameGrown(xs: seq<Item>, ys: seq<Item>, r: nat)
    requires r <= |xs| && SameStars(ys, xs)
    ensures Grown(xs, ys, r)
  {
    hide SameStars, NoStars, DistinctFiles;
    var k := |xs| - r;
    assert |ys| == |xs| by {
      assert SameStars(ys, xs);
      SameLength(ys, xs);
    }
    SliceStars(ys, xs, k, |xs|);
    SliceStars(ys, xs, 0, k);
    assert ys[k..|xs|] == ys[k..] && xs[k..|xs|] == xs[k..] && ys[0..k] == ys[..k] && xs[0..k] == xs[..k];
    StarsByFile(ys[..k], xs[..k]);
    StarsByFile(ys, xs);
  }

  lemma SameLength(a: seq<Item>, b: seq<Item>)
    requires SameStars(a, b)
    ensures |a| == |b|
  {
  }

  lemma PushedGrown(xs: seq<Item>, x: Item, r: nat)
    requires r <= |xs| && !IsStarItem(x) && NoneFor(xs, x.file)
    ensures Grown(xs, [x] + xs, r)
  {
    hide IsStarItem, SameStars, NoneFor, DistinctFiles, NoStars;
    var ys := [x] + xs;
    assert ys[|ys| - r..] == xs[|xs| - r..];
    SameStarsSelf(xs[|xs| - r..]);
    assert ys[..|ys| - r] == [x] + xs[..|xs| - r];
    PushedNoStars(xs[..|xs| - r], x);
    PushedDistinct(xs, x);
  }

  lemma PushedNoStars(xs: seq<Item>, x: Item)
    requires !IsStarItem(x)
    ensures NoStars(xs) ==> NoStars([x] + xs)
  {
    hide IsStarItem;
  }

  lemma PushedDistinct(xs: seq<Item>, x: Item)
    requires NoneFor(xs, x.file)
    ensures DistinctFiles(xs) ==> DistinctFiles([x] + xs)
  {
    hide IsStarItem;
  }

  lemma WithAddressesGrown(xs: seq<Item>, star: Item, g: string, r: nat)
    requires r <= |xs| && !StarName(g)
    ensures Grown(xs, WithAddresses(xs, star, g), r)
  {
    hide FindItem, Grown;
    var i, ys := FindItem(xs, g), WithAddresses(xs, star, g);
    if i < |xs| {
      SameGrown(xs, ys, r);
    } else {
      NotFound(xs, g);
      PushedGrown(xs, ys[0], r);
    }
  }

  lemma GrownTrans(xs: seq<Item>, ys: seq<Item>, zs: seq<Item>, r: nat)
    requires r <= |xs| && Grown(xs, ys, r) && Grown(ys, zs, r)
    ensures Grown(xs, zs, r)
  {
    hide SameStars, NoStars, DistinctFiles;
    SameStarsTrans(zs[|zs| - r..], ys[|ys| - r..], xs[|xs| - r..]);
  }

  lemma SameStarsTrans(a: seq<Item>, b: seq<Item>, c: seq<Item>)
    requires SameStars(a, b) && SameStars(b, c)
    ensures SameStars(a, c)
  {
  }

  lemma {:induction false} SharesSame(w: World, a: seq<Item>, b: seq<Item>, file: string)
    requires SameStars(a, b)
    ensures Shares(w, a, file) == Shares(w, b, file)
  {
    hide Share;
    if a != [] {
      SharesSame(w, a[1..], b[1..], file);
    }
  }

  // ---------------------------------------------------------------- one expansion

  ghost predicate PlainNames(entries: seq<DirEntry>)
  {
    forall i :: 0 <= i < |entries| ==> !StarName(entries[i].file)
  }

  lemma {:induction false} ExpandedOf(w: World, xs: seq<Item>, star: Item, entries: seq<DirEntry>, file: string)
    ensures AddressesOf(Expanded(w, xs, star, entries), file) == AddressesOf(xs, file) + Share(w, star, entries, file)
  {
    hide Changed, WithAddresses, FindItem;
    if entries != [] {
      var n := |entries| - 1;
      var t := Expanded(w, xs, star, entries[..n]);
      ExpandedOf(w, xs, star, entries[..n], file);
      WithAddressesOf(t, star, entries[n].file, file);
    }
  }

  lemma {:induction false} ExpandedGrown(w: World, xs: seq<Item>, star: Item, entries: seq<DirEntry>, r: nat)
    requires r <= |xs| && PlainNames(entries)
    ensures Grown(xs, Expanded(w, xs, star, entries), r)
  {
    hide Changed, WithAddresses, Grown, StarName;
    if entries == [] {
      SameStarsSelf(xs);
      SameGrown(xs, xs, r);
    } else {
      var n := |entries| - 1;
      var t := Expanded(w, xs, star, entries[..n]);
      ExpandedGrown(w, xs, star, entries[..n], r);
      if Changed(w, star.dir, entries[n]) {
        WithAddressesGrown(t, star, entries[n].file, r);
        GrownTrans(xs, t, WithAddresses(t, star, entries[n].file), r);
      }
    }
  }

  lemma SameStarsSelf(xs: seq<Item>)
    ensures SameStars(xs, xs)
  {
  }

  lemma WithoutOf(ys: seq<Item>, i: nat, file: string)
    requires i < |ys| && ys[i].file != file
    ensures AddressesOf(Without(ys, i), file) == AddressesOf(ys, file)
  {
    var zs, k := Without(ys, i), FindItem(ys, file);
    assert forall j :: 0 <= j < i ==> zs[j] == ys[j];
    assert forall j :: i <= j < |zs| ==> zs[j] == ys[j + 1];
    FirstItem(zs, file, if k <= i then k else k - 1);
  }

  lemma WithoutShape(ys: seq<Item>, r: nat)
    requires 0 < r <= |ys|
    ensures var zs := Without(ys, |ys| - r);
            && zs[|zs| - (r - 1)..] == ys[|ys| - r..][1..]
            && zs[..|zs| - (r - 1)] == ys[..|ys| - r]
            && (DistinctFiles(ys) ==> DistinctFiles(zs))
  {
    hide IsStarItem;
    var i := |ys| - r;
    var zs := Without(ys, i);
    assert forall j :: 0 <= j < i ==> zs[j] == ys[j];
    assert forall j :: i <= j < |zs| ==> zs[j] == ys[j + 1];
  }

  // ---------------------------------------------------------------- the whole pass

  lemma OpenedOf(w: World, xs: seq<Item>, star: Item, file: string)
    requires IsStarItem(star)
    ensures AddressesOf(Opened(w, xs, star), file) == AddressesOf(xs, file) + StarShare(w, star, file)
  {
    hide Changed, AddressesOf, Expanded;
    if star.dir in w.dirs {
      ExpandedOf(w, xs, star, w.dirs[star.dir], file);
    } else {
      assert AddressesOf(xs, file) + "" == AddressesOf(xs, file);
    }
  }

  lemma OpenedGrown(w: World, xs: seq<Item>, star: Item, r: nat)
    requires r <= |xs| && NoStarNames(w)
    ensures Grown(xs, Opened(w, xs, star), r)
  {
    hide Changed, Grown, Expanded;
    if star.dir in w.dirs {
      ExpandedGrown(w, xs, star, w.dirs[star.dir], r);
    } else {
      SameStarsSelf(xs);
      SameGrown(xs, xs, r);
    }
  }

  /** The second pass gives each file what it had, and then what the nodes for all
      files give it, in their order. */
  lemma {:induction false} VisitedOf(w: World, xs: seq<Item>, r: nat, file: string)
    requires r <= |xs| && NoStarNames(w) && !StarName(file)
    ensures AddressesOf(Visited(w, xs, r), file) == AddressesOf(xs, file) + Shares(w, xs[|xs| - r..], file)
    decreases r
  {
    hide AddressesOf, Opened, Without, StarShare, SameStars, Grown, NoStarNames;
    if r == 0 {
      assert AddressesOf(xs, file) + "" == AddressesOf(xs, file);
    } else {
      var k := |xs| - r;
      var x := xs[k];
      assert xs[k..][0] == x && xs[k..][1..] == xs[k + 1..];
      if !IsStarItem(x) {
        VisitedOf(w, xs, r - 1, file);
        NoShare(w, x, file);
      } else {
        var ys := Opened(w, xs, x);
        OpenedOf(w, xs, x, file);
        OpenedGrown(w, xs, x, r);
        StarStays(xs, ys, r);
        var zs := Without(ys, |ys| - r);
        WithoutShape(ys, r);
        WithoutOf(ys, |ys| - r, file);
        VisitedOf(w, zs, r - 1, file);
        SharesSame(w, zs[|zs| - (r - 1)..], xs[k + 1..], file);
      }
    }
  }

  lemma NoShare(w: World, x: Item, file: string)
    requires !IsStarItem(x)
    ensures StarShare(w, x, file) == ""
  {
  }

  /** The node that was expanded is still at its place. */
  lemma StarStays(xs: seq<Item>, ys: seq<Item>, r: nat)
    requires 0 < r <= |xs| && Grown(xs, ys, r) && IsStarItem(xs[|xs| - r])
    ensures |ys| >= r && ys[|ys| - r].file == xs[|xs| - r].file
    ensures SameStars(ys[|ys| - r..][1..], xs[|xs| - r..][1..])
  {
    hide IsStarItem;
    var a, b := ys[|ys| - r..], xs[|xs| - r..];
    assert a[0] == ys[|ys| - r] && b[0] == xs[|xs| - r];
  }

  lemma OneMoreNoStar(xs: seq<Item>, x: Item)
    requires NoStars(xs) && !IsStarItem(x)
    ensures NoStars(xs + [x])
  {
    hide IsStarItem;
  }

  /** It leaves no node for all files, and at most one for each file. */
  lemma {:induction false} VisitedShape(w: World, xs: seq<Item>, r: nat)
    requires r <= |xs| && NoStarNames(w) && NoStars(xs[..|xs| - r])
    ensures NoStars(Visited(w, xs, r))
    ensures DistinctFiles(xs) ==> DistinctFiles(Visited(w, xs, r))
    decreases r
  {
    hide Opened, Without, SameStars, DistinctFiles, NoStars, IsStarItem, NoStarNames;
    if r == 0 {
      assert xs[..|xs|] == xs;
    } else {
      var x := xs[|xs| - r];
      if !IsStarItem(x) {
        assert xs[..|xs| - (r - 1)] == xs[..|xs| - r] + [x];
        OneMoreNoStar(xs[..|xs| - r], x);
        VisitedShape(w, xs, r - 1);
      } else {
        var ys := Opened(w, xs, x);
        OpenedGrown(w, xs, x, r);
        WithoutShape(ys, r);
        VisitedShape(w, Without(ys, |ys| - r), r - 1);
      }
    }
  }
}
