/** The addresses of a node, and the third pass of a delivery (commands/afd_fui.c). */
module DeliveryAddresses {
  import opened Text
  import opened AddressText
  import opened TableLines
  import opened DeliveryLists

  /** get_option_args with an address */
  function NextAddress(s: string): (r: Option<(string, string)>)
    ensures r.Some? ==> |r.value.1| < |s|
  {
    var a := AddressOf(s);
    if a == "" then None else Some((a, SkipSpaces(s)[|a|..]))
  }

  function Addresses(s: string): seq<string>
    decreases |s|
  {
    match NextAddress(s)
    case None => []
    case Some((a, rest)) => [a] + Addresses(rest)
  }

  /** Each address with a blank behind it. */
  function Joined(xs: seq<string>): string
  {
    if xs == [] then "" else xs[0] + [BLANK] + Joined(xs[1..])
  }

  /** The last of each address, in their order. */
  function LastOnly(xs: seq<string>): seq<string>
  {
    if xs == [] then [] else if xs[0] in xs[1..] then LastOnly(xs[1..]) else [xs[0]] + LastOnly(xs[1..])
  }

  // ---------------------------------------------------------------- pass 3

  lemma AddressesStep(s: string)
    ensures Addresses(s) == match NextAddress(s) case None => [] case Some((a, rest)) => [a] + Addresses(rest)
  {
  }

  lemma {:induction false} JoinedAppend(a: seq<string>, b: seq<string>)
    ensures Joined(a + b) == Joined(a) + Joined(b)
  {
    if a == [] {
      assert a + b == b;
    } else {
      assert (a + b)[1..] == a[1..] + b;
      JoinedAppend(a[1..], b);
      ConcatAssoc3(a[0] + [BLANK], Joined(a[1..]), Joined(b));
    }
  }

  lemma ConcatAssoc3(a: string, b: string, c: string)
    ensures a + (b + c) == (a + b) + c
  {
  }

  lemma JoinedOne(a: string)
    ensures Joined([a]) == a + [BLANK]
  {
    assert [a][1..] == [];
    assert a + [BLANK] + "" == a + [BLANK];
  }

  /** Does the address occur again? */
  method Occurs(addr: string, text: string) returns (b: bool)
    ensures b <==> addr in Addresses(text)
  {
    hide Addresses, NextAddress;
    var s, done := text, false;
    b := false;
    while !done
      invariant addr in Addresses(text) <==> b || (!done && addr in Addresses(s))
      decreases |s|, !done
    {
      AddressesStep(s);
      match NextAddress(s)
      case None =>
        done := true;
      case Some((addr2, rest)) =>
        if addr == addr2 {
          b := true;
        }
        s := rest;
    }
  }

  /** The loop of afd_fui_remove_dup_addr over the addresses of a node. */
  method RemoveDup(text: string) returns (out: string)
    ensures out == Joined(LastOnly(Addresses(text)))
  {
    hide Addresses, NextAddress, Joined;
    var s, done := text, false;
    ghost var kept: seq<string> := [];
    out := "";
    JoinedNone();
    while !done
      invariant out == Joined(kept)
      invariant LastOnly(Addresses(text)) == kept + if done then [] else LastOnly(Addresses(s))
      decreases |s|, !done
    {
      AddressesStep(s);
      match NextAddress(s)
      case None =>
        done := true;
      case Some((addr, rest)) =>
        LastOnlyStep(addr, Addresses(rest));
        var again := Occurs(addr, rest);
        if !again {
          JoinedAppend(kept, [addr]);
          JoinedOne(addr);
          out := out + (addr + [BLANK]);
          kept := kept + [addr];
        }
        s := rest;
    }
    assert kept + [] == kept;
  }

  lemma JoinedNone()
    ensures Joined([]) == ""
  {
  }

  lemma LastOnlyStep(a: string, xs: seq<string>)
    ensures LastOnly([a] + xs) == (if a in xs then [] else [a]) + LastOnly(xs)
  {
    assert ([a] + xs)[1..] == xs;
  }

  function Unduplicated(x: Item): Item { x.(addresses := Joined(LastOnly(Addresses(x.addresses)))) }

  /** afd_fui_remove_dup_addr */
  method RemoveDupAddr(list: FileList)
    requires list.Valid()
    modifies list, list.repr
    ensures list.Valid() && list.repr == old(list.repr) && |list.items| == |old(list.items)|
    ensures forall i :: 0 <= i < |list.items| ==> list.items[i] == Unduplicated(old(list.items)[i])
  {
    hide Addresses, LastOnly, Joined;
    var ptr := list.head;
    ghost var i := 0;
    while ptr != null
      invariant list.Valid() && list.repr == old(list.repr) && list.nodes == old(list.nodes)
      invariant 0 <= i <= |list.nodes| && ptr == At(list.nodes, i)
      invariant forall j :: 0 <= j < i ==> list.items[j] == Unduplicated(old(list.items)[j])
      invariant forall j :: i <= j < |list.items| ==> list.items[j] == old(list.items)[j]
      decreases |list.nodes| - i
    {
      ptr := RemoveDupAt(list, ptr, i);
      i := i + 1;
    }
  }

  method RemoveDupAt(list: FileList, ptr: Node, ghost i: nat) returns (next: Node?)
    requires list.Valid() && i < |list.nodes| && list.nodes[i] == ptr
    modifies list`items, ptr`addresses
    ensures list.Valid() && next == At(list.nodes, i + 1)
    ensures list.items == old(list.items)[i := Unduplicated(old(list.items)[i])]
  {
    hide Addresses, LastOnly, Joined;
    ptr.addresses := RemoveDup(ptr.addresses);
    list.items := list.items[i := ptr.Value()];
    next := ptr.next;
  }

  // ---------------------------------------------------------------- what stays

  lemma {:induction false} LastOnlyKeeps(xs: seq<string>, x: string)
    ensures x in LastOnly(xs) <==> x in xs
  {
    if xs != [] {
      LastOnlyKeeps(xs[1..], x);
    }
  }

  lemma {:induction false} LastOnlyOnce(xs: seq<string>)
    ensures forall i, j :: 0 <= i < j < |LastOnly(xs)| ==> LastOnly(xs)[i] != LastOnly(xs)[j]
  {
    if xs != [] {
      LastOnlyOnce(xs[1..]);
      LastOnlyKeeps(xs[1..], xs[0]);
    }
  }

  /** Position p is the last of its address. */
  predicate IsLast(xs: seq<string>, p: nat) { p < |xs| && xs[p] !in xs[p + 1..] }

  /** Those that are kept stand in the order of their last places. */
  lemma {:induction false} LastOnlyOrder(xs: seq<string>, i: nat, j: nat) returns (p: nat, q: nat)
    requires i < j < |LastOnly(xs)|
    ensures p < q && IsLast(xs, p) && IsLast(xs, q) && xs[p] == LastOnly(xs)[i] && xs[q] == LastOnly(xs)[j]
  {
    var kept := if xs[0] in xs[1..] then 0 else 1;
    if i >= kept {
      p, q := LastOnlyOrder(xs[1..], i - kept, j - kept);
      p := p + 1;
    } else {
      p := 0;
      q := LastPlace(xs[1..], j - kept);
    }
    q := q + 1;
  }

  lemma {:induction false} LastPlace(xs: seq<string>, j: nat) returns (q: nat)
    requires j < |LastOnly(xs)|
    ensures IsLast(xs, q) && xs[q] == LastOnly(xs)[j]
  {
    var kept := if xs[0] in xs[1..] then 0 else 1;
    if j >= kept {
      q := LastPlace(xs[1..], j - kept);
      q := q + 1;
    } else {
      q := 0;
    }
  }

  // ---------------------------------------------------------------- texts of addresses

  ghost predicate GoodAddress(a: string) { a != "" && exists s :: AddressOf(s) == a }

  ghost predicate GoodAddresses(xs: seq<string>) { forall i :: 0 <= i < |xs| ==> GoodAddress(xs[i]) }

  lemma NextOfGood(a: string, x: string)
    requires GoodAddress(a)
    ensures NextAddress(a + [BLANK] + x) == Some((a, [BLANK] + x))
  {
    hide AddressOf, SkipSpaces;
    var s :| AddressOf(s) == a;
    AddressAgain(s, x);
    var u := a + [BLANK] + x;
    assert [BLANK] + u == [BLANK] + a + [BLANK] + x;
    SkipBlank(u);
    AddressSame([BLANK] + u, u);
    assert u[|a|..] == [BLANK] + x;
  }

  lemma AddressSame(s: string, t: string)
    requires SkipSpaces(s) == SkipSpaces(t)
    ensures AddressOf(s) == AddressOf(t)
  {
  }

  lemma BlankFirst(x: string)
    ensures Addresses([BLANK] + x) == Addresses(x)
  {
    assert ([BLANK] + x)[1..] == x;
    AddressSame([BLANK] + x, x);
  }

  lemma JoinedHead(xs: seq<string>)
    requires xs != []
    ensures Joined(xs) == xs[0] + [BLANK] + Joined(xs[1..])
  {
  }

  lemma HeadAndTail(xs: seq<string>, ys: seq<string>)
    requires xs != []
    ensures [xs[0]] + (xs[1..] + ys) == xs + ys
  {
  }

  /** Good addresses are read back. */
  lemma {:induction false} JoinedRead(xs: seq<string>, x: string)
    requires GoodAddresses(xs)
    ensures Addresses(Joined(xs) + x) == xs + Addresses(x)
  {
    hide NextAddress, Addresses, Joined, GoodAddress;
    if xs == [] {
      JoinedNone();
      assert "" + x == x && [] + Addresses(x) == Addresses(x);
    } else {
      var t := Joined(xs[1..]) + x;
      JoinedHead(xs);
      NextOfGood(xs[0], t);
      ConcatAssoc3(xs[0] + [BLANK], Joined(xs[1..]), x);
      AddressesStep(xs[0] + [BLANK] + t);
      BlankFirst(t);
      JoinedRead(xs[1..], x);
      HeadAndTail(xs, Addresses(x));
    }
  }

  /** A text of good addresses. */
  ghost predicate AddressList(s: string)
  {
    GoodAddresses(Addresses(s)) && Joined(Addresses(s)) == s
  }

  lemma JoinedIsList(xs: seq<string>)
    requires GoodAddresses(xs)
    ensures AddressList(Joined(xs)) && Addresses(Joined(xs)) == xs
  {
    hide Addresses, Joined;
    JoinedRead(xs, "");
    assert Joined(xs) + "" == Joined(xs) && xs + [] == xs;
    NoAddresses();
  }

  lemma NoAddresses()
    ensures Addresses("") == [] && AddressList("")
  {
    assert SkipSpaces("") == "";
    assert Scan("", 0, NO_NESTING) == (0, NO_NESTING);
    assert AddressOf("") == "";
  }

  lemma ListAppend(s: string, t: string)
    requires AddressList(s) && AddressList(t)
    ensures AddressList(s + t) && Addresses(s + t) == Addresses(s) + Addresses(t)
  {
    hide Addresses, Joined;
    JoinedAppend(Addresses(s), Addresses(t));
    JoinedIsList(Addresses(s) + Addresses(t));
  }
}
