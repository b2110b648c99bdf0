/**
 The rewrite as it happens: nodes of a parsed document, changed in place.  A ghost shape says
 which nodes make up a tree; no node occurs in it twice.
*/
module DomainTree {
  import opened BootToDisk

  class Node {
    const tag: string
    var attrs: map<string, string>
    var text: string
    var tail: string
    var children: seq<Node>

    constructor (tag: string)
      ensures this.tag == tag && attrs == map[] && text == "" && tail == "" && children == []
    {
      this.tag, attrs, text, tail, children := tag, map[], "", "", [];
    }
  }

  datatype Shape = Shape(node: Node, kids: seq<Shape>)

  ghost function Nodes(s: Shape): set<Node>
    decreases s, 1
  {
    {s.node} + NodesOf(s.kids)
  }

  ghost function NodesOf(kids: seq<Shape>): set<Node>
    decreases kids, 0
  {
    set k, n | 0 <= k < |kids| && n in Nodes(kids[k]) :: n
  }

  function Heads(kids: seq<Shape>): (r: seq<Node>)
    ensures |r| == |kids| && forall k :: 0 <= k < |kids| ==> r[k] == kids[k].node
  {
    seq(|kids|, k requires 0 <= k < |kids| => kids[k].node)
  }

  /** No node occurs twice. */
  ghost predicate Proper(s: Shape)
    decreases s, 1
  {
    s.node !in NodesOf(s.kids) && ProperAll(s.kids)
  }

  ghost predicate ProperAll(kids: seq<Shape>)
    decreases kids, 0
  {
    && (forall k :: 0 <= k < |kids| ==> Proper(kids[k]))
    && (forall j, k :: 0 <= j < k < |kids| ==> Nodes(kids[j]) !! Nodes(kids[k]))
  }

  /** The nodes are linked as the shape says. */
  ghost predicate Linked(s: Shape)
    reads Nodes(s)
    decreases s, 1
  {
    s.node.children == Heads(s.kids) && LinkedAll(s.kids)
  }

  ghost predicate LinkedAll(kids: seq<Shape>)
    reads NodesOf(kids)
    decreases kids, 0
  {
    forall k :: 0 <= k < |kids| ==> Linked(kids[k])
  }

  /** The document below a node. */
  ghost function Value(s: Shape): Element
    reads Nodes(s)
    decreases s, 1
  {
    Element(s.node.tag, s.node.attrs, s.node.text, s.node.tail, Values(s.kids))
  }

  ghost function Values(kids: seq<Shape>): (r: seq<Element>)
    reads NodesOf(kids)
    ensures |r| == |kids| && forall k :: 0 <= k < |kids| ==> r[k] == Value(kids[k])
    decreases kids, 0
  {
    if kids == [] then []
    else
      LastNodes(kids);
      Values(kids[..|kids| - 1]) + [Value(kids[|kids| - 1])]
  }

  lemma {:induction false} LastNodes(kids: seq<Shape>)
    requires kids != []
    ensures NodesOf(kids[..|kids| - 1]) <= NodesOf(kids) && Nodes(kids[|kids| - 1]) <= NodesOf(kids)
  {
    hide Nodes;
  }

  /** These trees hang below `n`, linked and with no node twice. */
  ghost predicate Below(n: Node, kids: seq<Shape>)
    reads n, NodesOf(kids)
  {
    n.children == Heads(kids) && LinkedAll(kids) && ProperAll(kids) && n !in NodesOf(kids)
  }

  // ------------------------------------------------------------------ shapes

  lemma {:induction false} PrefixNodes(kids: seq<Shape>, i: nat)
    requires i < |kids|
    ensures NodesOf(kids[..i + 1]) == NodesOf(kids[..i]) + Nodes(kids[i])
    ensures ProperAll(kids) ==> NodesOf(kids[..i]) !! Nodes(kids[i])
  {
    hide Nodes, Proper;
    AppendNodes(kids[..i], kids[i]);
    assert kids[..i] + [kids[i]] == kids[..i + 1];
  }

  lemma {:induction false} PrefixWithin(kids: seq<Shape>, i: nat)
    requires i <= |kids|
    ensures NodesOf(kids[..i]) <= NodesOf(kids)
  {
  }

  lemma {:induction false} AppendNodes(kids: seq<Shape>, x: Shape)
    ensures NodesOf(kids + [x]) == NodesOf(kids) + Nodes(x)
  {
    var all := kids + [x];
    assert all[|kids|] == x;
    forall n | n in NodesOf(kids) ensures n in NodesOf(all) {
      var k :| 0 <= k < |kids| && n in Nodes(kids[k]);
      assert all[k] == kids[k];
    }
  }

  lemma {:induction false} AppendProper(kids: seq<Shape>, x: Shape)
    requires ProperAll(kids) && Proper(x) && NodesOf(kids) !! Nodes(x)
    ensures ProperAll(kids + [x])
  {
    hide Nodes, Proper;
    assert forall k :: 0 <= k < |kids| ==> Nodes(kids[k]) <= NodesOf(kids);
    forall j, k | 0 <= j < k < |kids + [x]| ensures Nodes((kids + [x])[j]) !! Nodes((kids + [x])[k]) {
      if k == |kids| {
        assert (kids + [x])[j] == kids[j];
      }
    }
  }

  /** The trees kept so far, out of the first `i`. */
  ghost predicate KeptFrom(kept: seq<Shape>, kids: seq<Shape>, i: nat)
    requires i <= |kids|
    reads NodesOf(kept)
  {
    LinkedAll(kept) && ProperAll(kept) && NodesOf(kept) <= NodesOf(kids[..i])
  }

  /** One more tree is kept: `x` stands where `kids[i]` stood, on no other nodes. */
  lemma {:induction false} KeepOne(kept: seq<Shape>, kids: seq<Shape>, i: nat, x: Shape)
    requires i < |kids| && KeptFrom(kept, kids, i) && ProperAll(kids)
    requires Proper(x) && Linked(x) && Nodes(x) <= Nodes(kids[i]) && x.node == kids[i].node
    ensures KeptFrom(kept + [x], kids, i + 1) && NodesOf(kept + [x]) <= NodesOf(kids)
    ensures Values(kept + [x]) == Values(kept) + [Value(x)]
    ensures Heads(kept + [x]) == Heads(kept) + [kids[i].node]
  {
    hide Nodes, Proper, Linked, Value;
    PrefixNodes(kids, i);
    PrefixWithin(kids, i + 1);
    AppendNodes(kept, x);
    AppendProper(kept, x);
    assert forall k :: 0 <= k < |kept| ==> (kept + [x])[k] == kept[k];
  }

  lemma {:induction false} NothingKept(kids: seq<Shape>)
    ensures KeptFrom([], kids, 0) && Values([]) == [] && NodesOf([]) == {}
  {
  }

  lemma {:induction false} DropOne(kept: seq<Shape>, kids: seq<Shape>, i: nat)
    requires i < |kids| && KeptFrom(kept, kids, i) && ProperAll(kids)
    ensures KeptFrom(kept, kids, i + 1)
  {
    hide Nodes, Proper, Linked;
    PrefixNodes(kids, i);
  }

  lemma {:induction false} ReplaceProper(kids: seq<Shape>, i: nat, x: Shape)
    requires ProperAll(kids) && i < |kids| && Proper(x) && x.node == kids[i].node
    requires forall k :: 0 <= k < |kids| && k != i ==> Nodes(x) !! Nodes(kids[k])
    ensures ProperAll(kids[i := x]) && Heads(kids[i := x]) == Heads(kids)
    ensures NodesOf(kids[i := x]) <= NodesOf(kids) + Nodes(x)
  {
  }

  /** A shape is made of nodes that exist. */
  lemma {:induction false} NodesExist(s: Shape)
    ensures forall n :: n in Nodes(s) ==> allocated(n)
    decreases s, 1
  {
    NodesOfExist(s.kids);
  }

  lemma {:induction false} NodesOfExist(kids: seq<Shape>)
    ensures forall n :: n in NodesOf(kids) ==> allocated(n)
    decreases kids, 0
  {
    forall k | 0 <= k < |kids| ensures forall n :: n in Nodes(kids[k]) ==> allocated(n) {
      NodesExist(kids[k]);
    }
  }

  // ------------------------------------------------------------------ the rewrite

  lemma {:induction false} TakeOut(front: seq<Node>, listed: seq<Node>, i: nat)
    requires i < |listed|
    ensures var all := front + listed[i..];
            && all[..|front|] + all[|front| + 1..] == front + listed[i + 1..]
            && all == (front + [listed[i]]) + listed[i + 1..]
  {
    assert listed[i..] == [listed[i]] + listed[i + 1..];
  }

  lemma {:induction false} KeptAll(kept: seq<Shape>, kids: seq<Shape>, n: Node, listed: seq<Node>)
    requires KeptFrom(kept, kids, |kids|) && n !in NodesOf(kids) && |listed| == |kids|
    requires n.children == Heads(kept) + listed[|listed|..]
    ensures Below(n, kept) && NodesOf(kept) <= NodesOf(kids)
  {
    hide LinkedAll, ProperAll;
    assert kids[..|kids|] == kids;
  }

  /** Of the children listed, the first `i` have been dealt with. */
  ghost predicate Removing(n: Node, listed: seq<Node>, kids: seq<Shape>, kept: seq<Shape>, i: nat,
                           values: seq<Element>, tag: string)
    reads n, NodesOf(kids), NodesOf(kept)
  {
    && i <= |kids| && listed == Heads(kids) && ProperAll(kids) && n !in NodesOf(kids)
    && n.children == Heads(kept) + listed[i..]
    && LinkedAll(kids) && Values(kids) == values
    && KeptFrom(kept, kids, i) && NodesOf(kept) <= NodesOf(kids)
    && Values(kept) == Without(values[..i], tag)
  }

  /** A child that stays. */
  lemma {:induction false} KeepChild(n: Node, listed: seq<Node>, kids: seq<Shape>, kept: seq<Shape>, i: nat,
                                     values: seq<Element>, tag: string)
    requires i < |listed| && Removing(n, listed, kids, kept, i, values, tag) && listed[i].tag != tag
    ensures Removing(n, listed, kids, kept + [kids[i]], i + 1, values, tag)
  {
    hide Nodes, NodesOf, Proper, ProperAll, Linked, Value, Values, Without, KeptFrom, LinkedAll, Heads;
    WithoutNext(values, i, tag);
    KidAt(kids, i);
    TakeOut(Heads(kept), listed, i);
    KeepOne(kept, kids, i, kids[i]);
  }

  /** A child that goes. */
  method DropChild(n: Node, at: nat, ghost listed: seq<Node>, ghost kids: seq<Shape>, ghost kept: seq<Shape>,
                   ghost i: nat, ghost values: seq<Element>, ghost tag: string)
    requires i < |listed| && Removing(n, listed, kids, kept, i, values, tag) && listed[i].tag == tag && at == |kept|
    modifies n`children
    ensures Removing(n, listed, kids, kept, i + 1, values, tag)
  {
    hide Nodes, NodesOf, Proper, ProperAll, Linked, Value, Values, Without, KeptFrom, LinkedAll, Heads;
    WithoutNext(values, i, tag);
    KidAt(kids, i);
    TakeOut(Heads(kept), listed, i);
    n.children := n.children[..at] + n.children[at + 1..];
    DropOne(kept, kids, i);
  }

  /** Take the children with this tag out of `n`, one at a time. */
  method RemoveAll(n: Node, tag: string, ghost kids: seq<Shape>) returns (ghost kept: seq<Shape>)
    requires Below(n, kids)
    modifies n`children
    ensures Below(n, kept) && NodesOf(kept) <= NodesOf(kids)
    ensures Values(kept) == Without(old(Values(kids)), tag)
  {
    hide *;
    ghost var values := Values(kids);
    var listed := n.children;
    var at := 0;
    kept := [];
    StartRemoving(n, listed, kids, values, tag);
    for i := 0 to |listed|
      invariant Removing(n, listed, kids, kept, i, values, tag) && at == |kept|
    {
      if listed[i].tag == tag {
        DropChild(n, at, listed, kids, kept, i, values, tag);
      } else {
        KeepChild(n, listed, kids, kept, i, values, tag);
        kept := kept + [kids[i]];
        at := at + 1;
      }
    }
    DoneRemoving(n, listed, kids, kept, values, tag);
  }

  lemma {:induction false} StartRemoving(n: Node, listed: seq<Node>, kids: seq<Shape>, values: seq<Element>,
                                         tag: string)
    requires Below(n, kids) && listed == n.children && values == Values(kids)
    ensures Removing(n, listed, kids, [], 0, values, tag) && |listed| == |kids|
  {
    NothingKept(kids);
    WithoutNext(values, 0, tag);
  }

  lemma {:induction false} DoneRemoving(n: Node, listed: seq<Node>, kids: seq<Shape>, kept: seq<Shape>,
                                        values: seq<Element>, tag: string)
    requires Removing(n, listed, kids, kept, |kids|, values, tag)
    ensures Below(n, kept) && NodesOf(kept) <= NodesOf(kids) && Values(kept) == Without(values, tag)
  {
    hide Nodes, NodesOf, Proper, Linked, Value, Values;
    WithoutNext(values, |values|, tag);
    KeptAll(kept, kids, n, listed);
  }

  lemma {:induction false} WithoutNext(values: seq<Element>, i: nat, tag: string)
    requires i <= |values|
    ensures i == 0 ==> Without(values[..i], tag) == []
    ensures i < |values| ==>
              Without(values[..i + 1], tag)
              == Without(values[..i], tag) + if values[i].tag == tag then [] else [values[i]]
    ensures i == |values| ==> values[..i] == values
  {
    if i < |values| {
      assert values[..i + 1][..i] == values[..i];
    }
  }

  lemma {:induction false} KidAt(kids: seq<Shape>, i: nat)
    requires i < |kids| && LinkedAll(kids) && ProperAll(kids)
    ensures Linked(kids[i]) && Proper(kids[i])
    ensures Values(kids)[i] == Value(kids[i]) && Value(kids[i]).tag == kids[i].node.tag
  {
  }

  /** Take the boot entries out of a device that is a disk. */
  method StripBoot(device: Node, ghost s: Shape) returns (ghost r: Shape)
    requires s.node == device && Linked(s) && Proper(s)
    modifies device`children
    ensures r.node == device && Linked(r) && Proper(r) && Nodes(r) <= Nodes(s)
    ensures Value(r) == Unordered(old(Value(s)))
  {
    r := s;
    if device.tag == "disk" {
      ghost var kept := RemoveAll(device, "boot", s.kids);
      r := Shape(device, kept);
    }
  }

  predicate IsCdromNode(device: Node)
    reads device
  {
    device.tag == "disk" && "device" in device.attrs && device.attrs["device"] == "cdrom"
  }

  /** These trees hold these documents. */
  ghost predicate Holds(kids: seq<Shape>, values: seq<Element>)
    reads NodesOf(kids)
  {
    LinkedAll(kids) && Values(kids) == values
  }

  /** Of the devices listed, the first `i` have been dealt with. */
  ghost predicate Cleaning(d: Node, listed: seq<Node>, kids: seq<Shape>, kept: seq<Shape>, i: nat, values: seq<Element>)
    reads d, NodesOf(kids), NodesOf(kept)
  {
    && i <= |kids| == |values| && listed == Heads(kids) && ProperAll(kids) && d !in NodesOf(kids)
    && d.children == Heads(kept) + listed[i..]
    && Holds(kids[i..], values[i..])
    && KeptFrom(kept, kids, i) && NodesOf(kept) <= NodesOf(kids)
    && Values(kept) == Kept(values[..i])
  }

  /** Detach one device if it is a cdrom, else take its boot entries out; report whether it stays. */
  method CleanDevice(d: Node, device: Node, at: nat, ghost listed: seq<Node>, ghost kids: seq<Shape>,
                     ghost kept: seq<Shape>, ghost i: nat, ghost values: seq<Element>)
    returns (stays: bool, ghost now: seq<Shape>)
    requires Cleaning(d, listed, kids, kept, i, values) && i < |listed| && device == listed[i] && at == |kept|
    modifies d`children, device`children
    ensures Cleaning(d, listed, kids, now, i + 1, values)
    ensures |now| == if stays then at + 1 else at
  {
    hide Nodes, NodesOf, Proper, ProperAll, Linked, Value, Values, Kept, Unordered, IsCdrom, IsCdromNode, KeptFrom,
         LinkedAll, Holds;
    KeptNext(values, i);
    RestHolds(kids, i, values);
    Apart(kept, kids, i);
    TakeOut(Heads(kept), listed, i);
    NodesOfExist(kids);
    stays := !IsCdromNode(device);
    now := kept;
    if stays {
      ghost var x := StripBoot(device, kids[i]);
      KeepOne(kept, kids, i, x);
      now := kept + [x];
    } else {
      d.children := d.children[..at] + d.children[at + 1..];
      DropOne(kept, kids, i);
    }
  }

  /** Detach the cdroms below `d`, and every boot entry of the other disks. */
  method CleanDevices(d: Node, ghost kids: seq<Shape>) returns (ghost kept: seq<Shape>)
    requires Below(d, kids)
    modifies d`children, NodesOf(kids)
    ensures Below(d, kept) && NodesOf(kept) <= NodesOf(kids)
    ensures Values(kept) == Kept(old(Values(kids)))
  {
    ghost var values := Values(kids);
    var listed := d.children;
    var at := 0;
    kept := [];
    StartCleaning(d, listed, kids, values);
    hide Cleaning, NodesOf, Below, Values;
    for i := 0 to |listed|
      invariant Cleaning(d, listed, kids, kept, i, values) && at == |kept|
    {
      assert listed[i] in NodesOf(kids) by { HeadsAreNodes(kids, i); }
      var stays;
      stays, kept := CleanDevice(d, listed[i], at, listed, kids, kept, i, values);
      at := if stays then at + 1 else at;
    }
    DoneCleaning(d, listed, kids, kept, values);
  }

  lemma {:induction false} HeadsAreNodes(kids: seq<Shape>, i: nat)
    requires i < |kids|
    ensures kids[i].node in NodesOf(kids)
  {
    assert kids[i].node in Nodes(kids[i]);
  }

  lemma {:induction false} StartCleaning(d: Node, listed: seq<Node>, kids: seq<Shape>, values: seq<Element>)
    requires Below(d, kids) && listed == d.children && values == Values(kids)
    ensures Cleaning(d, listed, kids, [], 0, values)
  {
    NothingKept(kids);
    KeptNext(values, 0);
    AllHold(kids);
  }

  lemma {:induction false} DoneCleaning(d: Node, listed: seq<Node>, kids: seq<Shape>, kept: seq<Shape>,
                                        values: seq<Element>)
    requires Cleaning(d, listed, kids, kept, |kids|, values)
    ensures Below(d, kept) && NodesOf(kept) <= NodesOf(kids) && Values(kept) == Kept(values)
  {
    hide Nodes, NodesOf, Proper, Linked, Value, Values;
    KeptNext(values, |values|);
    KeptAll(kept, kids, d, listed);
  }

  lemma {:induction false} KeptNext(values: seq<Element>, i: nat)
    requires i <= |values|
    ensures i == 0 ==> Kept(values[..i]) == []
    ensures i < |values| ==>
              Kept(values[..i + 1])
              == Kept(values[..i]) + if IsCdrom(values[i]) then [] else [Unordered(values[i])]
    ensures i == |values| ==> values[..i] == values
  {
    if i < |values| {
      assert values[..i + 1][..i] == values[..i];
    }
  }

  lemma {:induction false} AllHold(kids: seq<Shape>)
    requires LinkedAll(kids)
    ensures Holds(kids[0..], Values(kids)[0..])
  {
    assert kids[0..] == kids;
  }

  lemma {:induction false} RestHolds(kids: seq<Shape>, i: nat, values: seq<Element>)
    requires i < |kids| == |values| && Holds(kids[i..], values[i..]) && ProperAll(kids)
    ensures Linked(kids[i]) && Proper(kids[i]) && Value(kids[i]) == values[i]
    ensures IsCdrom(values[i]) <==> IsCdromNode(kids[i].node)
    ensures Holds(kids[i + 1..], values[i + 1..])
  {
    hide Nodes, Proper, Linked;
    assert kids[i..][0] == kids[i] && values[i..][0] == values[i];
    assert kids[i + 1..] == kids[i..][1..];
    assert values[i + 1..] == values[i..][1..];
  }

  /** A tree shares no node with those kept before it, nor with those still to come. */
  lemma {:induction false} Apart(kept: seq<Shape>, kids: seq<Shape>, i: nat)
    requires i < |kids| && ProperAll(kids) && KeptFrom(kept, kids, i)
    ensures kids[i].node in Nodes(kids[i]) && kids[i].node in NodesOf(kids)
    ensures Nodes(kids[i]) !! NodesOf(kept) && Nodes(kids[i]) !! NodesOf(kids[i + 1..])
    ensures NodesOf(kids[i..]) <= NodesOf(kids) && NodesOf(kids[i + 1..]) <= NodesOf(kids)
  {
    assert kids[i].node in Nodes(kids[i]);
    hide Nodes, Proper, Linked;
    PrefixNodes(kids, i);
  }

  // ------------------------------------------------------------------ the boot entry

  function NodeAt(nodes: seq<Node>, tag: string): (n: nat)
    ensures n <= |nodes|
    ensures forall k :: 0 <= k < n ==> nodes[k].tag != tag
    ensures n < |nodes| ==> nodes[n].tag == tag
  {
    if nodes == [] || nodes[0].tag == tag then 0 else 1 + NodeAt(nodes[1..], tag)
  }

  lemma {:induction false} NodeAtIsFindAt(nodes: seq<Node>, values: seq<Element>, tag: string)
    requires |nodes| == |values| && forall k :: 0 <= k < |nodes| ==> nodes[k].tag == values[k].tag
    ensures NodeAt(nodes, tag) == FindAt(values, tag)
  {
    if nodes != [] && nodes[0].tag != tag {
      NodeAtIsFindAt(nodes[1..], values[1..], tag);
    }
  }

  lemma {:induction false} NodeAtLast(nodes: seq<Node>, last: Node, tag: string)
    requires last.tag != tag
    ensures NodeAt(nodes + [last], tag) == if NodeAt(nodes, tag) < |nodes| then NodeAt(nodes, tag) else |nodes| + 1
  {
    if nodes == [] {
      assert (nodes + [last])[1..] == [];
    } else {
      assert (nodes + [last])[1..] == nodes[1..] + [last];
      NodeAtLast(nodes[1..], last, tag);
    }
  }

  lemma {:induction false} TagsAgree(kids: seq<Shape>)
    ensures forall k :: 0 <= k < |kids| ==> Heads(kids)[k].tag == Values(kids)[k].tag
  {
  }

  lemma {:induction false} InsertShape(n: Node, kids: seq<Shape>, at: nat, x: Shape)
    requires LinkedAll(kids) && ProperAll(kids) && n !in NodesOf(kids) && at <= |kids|
    requires Linked(x) && Proper(x) && Nodes(x) !! NodesOf(kids) && n !in Nodes(x)
    requires n.children == Heads(kids)[..at] + [x.node] + Heads(kids)[at..]
    ensures var r := kids[..at] + [x] + kids[at..];
            && Below(n, r) && NodesOf(r) == NodesOf(kids) + Nodes(x)
            && Values(r) == Insert(Values(kids), at, Value(x))
  {
    hide Nodes, Proper, Linked, Value;
    var r := kids[..at] + [x] + kids[at..];
    InsertNodes(kids, at, x);
    InsertProper(kids, at, x);
    assert n.children == Heads(r);
    forall k | 0 <= k < |r| ensures Linked(r[k]) {
      assert r[k] == if k < at then kids[k] else if k == at then x else kids[k - 1];
    }
    assert Values(r) == Insert(Values(kids), at, Value(x));
  }

  lemma {:induction false} InsertNodes(kids: seq<Shape>, at: nat, x: Shape)
    requires at <= |kids|
    ensures NodesOf(kids[..at] + [x] + kids[at..]) == NodesOf(kids) + Nodes(x)
  {
    hide Nodes;
    var r := kids[..at] + [x] + kids[at..];
    assert r[at] == x;
    forall n | n in NodesOf(kids) ensures n in NodesOf(r) {
      var k :| 0 <= k < |kids| && n in Nodes(kids[k]);
      assert kids[k] == r[if k < at then k else k + 1];
    }
    forall k | 0 <= k < |r| ensures r[k] == x || r[k] in kids {
      assert r[k] == if k < at then kids[k] else if k == at then x else kids[k - 1];
    }
  }

  lemma {:induction false} InsertProper(kids: seq<Shape>, at: nat, x: Shape)
    requires ProperAll(kids) && at <= |kids| && Proper(x) && Nodes(x) !! NodesOf(kids)
    ensures ProperAll(kids[..at] + [x] + kids[at..])
  {
    hide Nodes, Proper;
    var r := kids[..at] + [x] + kids[at..];
    forall k | 0 <= k < |r| ensures r[k] == if k < at then kids[k] else if k == at then x else kids[k - 1] {
    }
    assert forall k :: 0 <= k < |kids| ==> Nodes(kids[k]) <= NodesOf(kids);
    forall j, k | 0 <= j < k < |r| ensures Nodes(r[j]) !! Nodes(r[k]) {
    }
  }

  /** A fresh boot entry for the disk. */
  method NewBoot() returns (boot: Node)
    ensures fresh(boot) && boot.tag == "boot"
    ensures var leaf := Shape(boot, []);
            Linked(leaf) && Proper(leaf) && Nodes(leaf) == {boot} && Value(leaf) == BOOT_DISK
  {
    boot := new Node("boot");
    boot.attrs := boot.attrs["dev" := "hd"];
  }

  /** The place behind the first `type`, or the end. */
  function PlaceOf(nodes: seq<Node>): (n: nat)
    ensures n <= |nodes|
  {
    var n := NodeAt(nodes, "type"); if n < |nodes| then n + 1 else n
  }

  /** Append the boot entry, then move it behind the type if there is one. */
  method PlaceBoot(os: Node, boot: Node)
    requires boot.tag == "boot"
    modifies os`children
    ensures os.children == old(os.children[..PlaceOf(os.children)] + [boot] + os.children[PlaceOf(os.children)..])
  {
    ghost var rest := os.children;
    os.children := os.children + [boot];
    NodeAtLast(rest, boot, "type");
    var at := NodeAt(os.children, "type");
    hide NodeAt;
    if at < |os.children| {
      os.children := os.children[..|os.children| - 1];
      assert os.children == rest;
      os.children := os.children[..at + 1] + [boot] + os.children[at + 1..];
    }
  }

  lemma {:induction false} PlaceIsAfterType(kids: seq<Shape>)
    ensures PlaceOf(Heads(kids)) == AfterType(Values(kids))
  {
    TagsAgree(kids);
    NodeAtIsFindAt(Heads(kids), Values(kids), "type");
  }

  /** Replace the boot entries by one for the disk. */
  method PinBoot(os: Node, ghost kids: seq<Shape>) returns (ghost pinned: seq<Shape>)
    requires Below(os, kids)
    modifies os`children
    ensures Below(os, pinned) && forall n :: n in NodesOf(pinned) ==> n in NodesOf(kids) || fresh(n)
    ensures Values(pinned) == Pinned(old(Values(kids)))
  {
    hide Nodes, NodesOf, Proper, Linked, Value, Values, Without, LinkedAll, ProperAll, PlaceOf, AfterType, Heads;
    NodesOfExist(kids);
    ghost var kept := RemoveAll(os, "boot", kids);
    var boot := NewBoot();
    ghost var leaf := Shape(boot, []);
    PlaceIsAfterType(kept);
    PlaceBoot(os, boot);
    ghost var place := PlaceOf(Heads(kept));
    InsertShape(os, kept, place, leaf);
    pinned := kept[..place] + [leaf] + kept[place..];
  }

  // ------------------------------------------------------------------ the root

  /** What is known of the tree at place `i`. */
  lemma {:induction false} KidFacts(s: Shape)
    requires Linked(s) && Proper(s)
    ensures Below(s.node, s.kids) && s.node in Nodes(s) && NodesOf(s.kids) <= Nodes(s)
    ensures var e := Value(s);
            && s.node.tag == e.tag && s.node.attrs == e.attrs && s.node.text == e.text && s.node.tail == e.tail
            && Values(s.kids) == e.children
  {
  }

  /** The trees on both sides of place `i` share no node with the one there. */
  lemma {:induction false} Sides(kids: seq<Shape>, i: nat, values: seq<Element>)
    requires LinkedAll(kids) && ProperAll(kids) && Values(kids) == values && i < |kids|
    ensures Linked(kids[i]) && Proper(kids[i]) && Value(kids[i]) == values[i]
    ensures Holds(kids[..i], values[..i]) && Holds(kids[i + 1..], values[i + 1..])
    ensures Nodes(kids[i]) !! NodesOf(kids[..i]) && Nodes(kids[i]) !! NodesOf(kids[i + 1..])
    ensures Nodes(kids[i]) <= NodesOf(kids) && NodesOf(kids[..i]) <= NodesOf(kids)
            && NodesOf(kids[i + 1..]) <= NodesOf(kids)
  {
    hide Nodes, Proper, Linked, Value;
    PrefixNodes(kids, i);
    PrefixWithin(kids, i);
    SidesHold(kids, i, values);
  }

  lemma {:induction false} SidesHold(kids: seq<Shape>, i: nat, values: seq<Element>)
    requires LinkedAll(kids) && Values(kids) == values && i < |kids|
    ensures Holds(kids[..i], values[..i]) && Holds(kids[i + 1..], values[i + 1..])
  {
    hide Nodes, Proper, Linked, Value;
    var before, after := kids[..i], kids[i + 1..];
    assert forall k :: 0 <= k < |before| ==> before[k] == kids[k];
    assert forall k :: 0 <= k < |after| ==> after[k] == kids[i + 1 + k];
    assert Values(before) == values[..i];
    assert Values(after) == values[i + 1..];
  }

  /** The changed tree takes its place among the others. */
  lemma {:induction false} PutBack(root: Node, kids: seq<Shape>, i: nat, values: seq<Element>, x: Shape)
    requires i < |kids| == |values| && ProperAll(kids) && root !in NodesOf(kids) && root.children == Heads(kids)
    requires Holds(kids[..i], values[..i]) && Holds(kids[i + 1..], values[i + 1..])
    requires Linked(x) && Proper(x) && x.node == kids[i].node && root !in Nodes(x)
    requires Nodes(x) !! NodesOf(kids[..i]) && Nodes(x) !! NodesOf(kids[i + 1..])
    ensures var r := kids[i := x];
            Below(root, r) && Values(r) == values[i := Value(x)] && NodesOf(r) <= NodesOf(kids) + Nodes(x)
  {
    hide Nodes, Proper, Linked, Value;
    var r := kids[i := x];
    forall k | 0 <= k < |kids| && k != i
      ensures Nodes(x) !! Nodes(kids[k]) && Linked(kids[k]) && Value(kids[k]) == values[k]
    {
      if k < i {
        assert kids[..i][k] == kids[k] && values[..i][k] == values[k];
      } else {
        assert kids[i + 1..][k - i - 1] == kids[k] && values[i + 1..][k - i - 1] == values[k];
      }
    }
    ReplaceProper(kids, i, x);
    forall k | 0 <= k < |kids| ensures Values(r)[k] == values[i := Value(x)][k] {
    }
  }

  /** The tree at the first place with this tag, and what the rewrite does to the whole list. */
  lemma {:induction false} FirstKid(kids: seq<Shape>, tag: string, values: seq<Element>)
    requires Values(kids) == values
    ensures var i := NodeAt(Heads(kids), tag);
            ChangeFirst(values, tag) == if i < |values| then values[i := Change(values[i])] else values
    ensures var i := NodeAt(Heads(kids), tag); i < |kids| ==> values[i].tag == tag && kids[i].node.tag == tag
  {
    TagsAgree(kids);
    NodeAtIsFindAt(Heads(kids), values, tag);
  }

  method DetachCdroms(root: Node, ghost kids: seq<Shape>) returns (ghost r: seq<Shape>)
    requires Below(root, kids)
    modifies NodesOf(kids)
    ensures Below(root, r) && NodesOf(r) <= NodesOf(kids)
    ensures Values(r) == ChangeFirst(old(Values(kids)), "devices")
  {
    hide Nodes, NodesOf, Proper, Linked, Value, Values, LinkedAll, ProperAll, Holds, Kept, NodeAt, Pinned, ChangeFirst;
    ghost var values := Values(kids);
    FirstKid(kids, "devices", values);
    NodesOfExist(kids);
    var i := NodeAt(root.children, "devices");
    r := kids;
    if i < |root.children| {
      Sides(kids, i, values);
      KidFacts(kids[i]);
      ghost var below := CleanDevices(root.children[i], kids[i].kids);
      ghost var x := Shape(kids[i].node, below);
      ChangedShape(x, values[i]);
      PutBack(root, kids, i, values, x);
      r := kids[i := x];
    }
  }

  method PinDisk(root: Node, ghost kids: seq<Shape>) returns (ghost r: seq<Shape>)
    requires Below(root, kids)
    modifies NodesOf(kids)
    ensures Below(root, r) && forall n :: n in NodesOf(r) ==> n in NodesOf(kids) || fresh(n)
    ensures Values(r) == ChangeFirst(old(Values(kids)), "os")
  {
    hide Nodes, NodesOf, Proper, Linked, Value, Values, LinkedAll, ProperAll, Holds, Kept, NodeAt, Pinned, ChangeFirst;
    ghost var values := Values(kids);
    FirstKid(kids, "os", values);
    NodesOfExist(kids);
    var i := NodeAt(root.children, "os");
    r := kids;
    if i < |root.children| {
      Sides(kids, i, values);
      KidFacts(kids[i]);
      ghost var below := PinBoot(root.children[i], kids[i].kids);
      ghost var x := Shape(kids[i].node, below);
      ChangedShape(x, values[i]);
      PutBack(root, kids, i, values, x);
      r := kids[i := x];
    }
  }

  method RestartOnReboot(root: Node, ghost kids: seq<Shape>)
    requires Below(root, kids)
    modifies NodesOf(kids)
    ensures Below(root, kids)
    ensures Values(kids) == ChangeFirst(old(Values(kids)), "on_reboot")
  {
    hide Nodes, NodesOf, Proper, Linked, Value, Values, LinkedAll, ProperAll, Holds, Kept, NodeAt, Pinned, ChangeFirst;
    ghost var values := Values(kids);
    FirstKid(kids, "on_reboot", values);
    NodesOfExist(kids);
    var i := NodeAt(root.children, "on_reboot");
    if i < |root.children| {
      Sides(kids, i, values);
      KidFacts(kids[i]);
      root.children[i].text := "restart";
      ChangedShape(kids[i], values[i].(text := "restart"));
      PutBack(root, kids, i, values, kids[i]);
      assert kids[i := kids[i]] == kids;
    }
  }

  /** A node and the trees below it make a tree again. */
  lemma {:induction false} ChangedShape(x: Shape, value: Element)
    requires Below(x.node, x.kids)
    requires x.node.tag == value.tag && x.node.attrs == value.attrs && x.node.text == value.text
             && x.node.tail == value.tail
    ensures Linked(x) && Proper(x) && Nodes(x) == {x.node} + NodesOf(x.kids)
    ensures Value(x) == value.(children := Values(x.kids))
  {
  }

  /** The rewrite of a parsed document, in place. */
  method XmlBootToDisk(root: Node, ghost s: Shape) returns (ghost r: Shape)
    requires s.node == root && Linked(s) && Proper(s)
    modifies NodesOf(s.kids)
    ensures r.node == root && Linked(r) && Proper(r)
    ensures Value(r) == Rewritten(old(Value(s)))
    ensures forall n :: n in Nodes(r) ==> n in Nodes(s) || fresh(n)
  {
    hide Nodes, NodesOf, Proper, Linked, Value, Values, LinkedAll, ProperAll, ChangeFirst;
    ghost var value := Value(s);
    KidFacts(s);
    NodesOfExist(s.kids);
    ghost var kids := DetachCdroms(root, s.kids);
    kids := PinDisk(root, kids);
    RestartOnReboot(root, kids);
    r := Shape(root, kids);
    ChangedShape(r, value);
  }
}
