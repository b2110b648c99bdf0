/**
 The rewrite of an installer's domain XML so that the VM boots from its disk, as a function on
 element trees, with the two readers whose answers it must not change.
*/
module BootToDisk {
  import opened Common

  datatype Element = Element(tag: string, attrs: map<string, string>, text: string, tail: string,
                             children: seq<Element>)

  // ------------------------------------------------------------------ reading

  function Attr(e: Element, name: string): Option<string> {
    if name in e.attrs then Some(e.attrs[name]) else None
  }

  /** The index of the first child with this tag, or the number of children. */
  function FindAt(children: seq<Element>, tag: string): (n: nat)
    ensures n <= |children|
    ensures forall k :: 0 <= k < n ==> children[k].tag != tag
    ensures n < |children| ==> children[n].tag == tag
  {
    if children == [] || children[0].tag == tag then 0 else 1 + FindAt(children[1..], tag)
  }

  function First(children: seq<Element>, tag: string): Option<Element> {
    if children == [] then None
    else
      var before, last := children[..|children| - 1], children[|children| - 1];
      if First(before, tag).Some? || last.tag != tag then First(before, tag) else Some(last)
  }

  /** The file behind a disk that is not a cdrom or a floppy. */
  function DiskFile(device: Element): Option<string> {
    if device.tag != "disk" || Attr(device, "device") != Some("disk") then None
    else
      match First(device.children, "source")
      case None => None
      case Some(source) => if Attr(source, "file") == Some("") then None else Attr(source, "file")
  }

  function FirstFile(devices: seq<Element>): Option<string> {
    if devices == [] then None
    else
      var before, last := devices[..|devices| - 1], devices[|devices| - 1];
      if FirstFile(before).Some? then FirstFile(before) else DiskFile(last)
  }

  function FileBelow(children: seq<Element>): Option<string> {
    if children == [] then None
    else if children[0].tag == "devices" && FirstFile(children[0].children).Some? then FirstFile(children[0].children)
    else FileBelow(children[1..])
  }

  /** None is the error that the domain has no file-backed disk. */
  function PrimaryDiskPath(root: Element): Option<string> {
    FileBelow(root.children)
  }

  const NVME := "{https://github.com/boxer-vm/boxer}nvme"

  predicate NvmeEnabled(root: Element) {
    exists i, j | 0 <= i < |root.children| && 0 <= j < |root.children[i].children| ::
      root.children[i].tag == "metadata" && root.children[i].children[j].tag == NVME
      && Attr(root.children[i].children[j], "enabled") == Some("true")
  }

  // ------------------------------------------------------------------ rewriting

  function Without(children: seq<Element>, tag: string): seq<Element> {
    if children == [] then []
    else
      var before, last := children[..|children| - 1], children[|children| - 1];
      Without(before, tag) + if last.tag == tag then [] else [last]
  }

  predicate IsCdrom(device: Element) {
    device.tag == "disk" && Attr(device, "device") == Some("cdrom")
  }

  function Unordered(device: Element): Element {
    if device.tag == "disk" then device.(children := Without(device.children, "boot")) else device
  }

  function Kept(devices: seq<Element>): seq<Element> {
    if devices == [] then []
    else
      var before, last := devices[..|devices| - 1], devices[|devices| - 1];
      Kept(before) + if IsCdrom(last) then [] else [Unordered(last)]
  }

  const BOOT_DISK := Element("boot", map["dev" := "hd"], "", "", [])

  function Insert(children: seq<Element>, at: nat, e: Element): seq<Element>
    requires at <= |children|
  {
    children[..at] + [e] + children[at..]
  }

  function AfterType(children: seq<Element>): (n: nat)
    ensures n <= |children|
  {
    var n := FindAt(children, "type"); if n < |children| then n + 1 else n
  }

  function Pinned(children: seq<Element>): seq<Element> {
    var rest := Without(children, "boot");
    Insert(rest, AfterType(rest), BOOT_DISK)
  }

  /** What becomes of the first `devices`, `os` and `on_reboot`. */
  function Change(e: Element): (r: Element)
    ensures r.tag == e.tag
  {
    if e.tag == "devices" then e.(children := Kept(e.children))
    else if e.tag == "os" then e.(children := Pinned(e.children))
    else if e.tag == "on_reboot" then e.(text := "restart")
    else e
  }

  function ChangeFirst(children: seq<Element>, tag: string): (r: seq<Element>)
    ensures |r| == |children|
  {
    var n := FindAt(children, tag);
    if n < |children| then children[n := Change(children[n])] else children
  }

  function Rewritten(root: Element): Element {
    root.(children := ChangeFirst(ChangeFirst(ChangeFirst(root.children, "devices"), "os"), "on_reboot"))
  }

  // ------------------------------------------------------------------ filtering

  lemma {:induction false} WithoutTwice(children: seq<Element>, tag: string)
    ensures forall k :: 0 <= k < |Without(children, tag)| ==> Without(children, tag)[k].tag != tag
    ensures Without(Without(children, tag), tag) == Without(children, tag)
  {
    if children == [] {
    } else {
      var last := children[|children| - 1];
      WithoutTwice(children[..|children| - 1], tag);
      if last.tag != tag {
        assert Without(children, tag)[..|Without(children, tag)| - 1] == Without(children[..|children| - 1], tag);
      } else {
        assert Without(children, tag) == Without(children[..|children| - 1], tag);
      }
    }
  }

  lemma {:induction false} WithoutNone(children: seq<Element>, tag: string)
    requires forall k :: 0 <= k < |children| ==> children[k].tag != tag
    ensures Without(children, tag) == children
  {
    if children == [] {
    } else {
      WithoutNone(children[..|children| - 1], tag);
    }
  }

  lemma {:induction false} WithoutKeepsFirst(children: seq<Element>, gone: string, tag: string)
    requires gone != tag
    ensures First(Without(children, gone), tag) == First(children, tag)
  {
    if children == [] {
    } else {
      var last := children[|children| - 1];
      WithoutKeepsFirst(children[..|children| - 1], gone, tag);
      if last.tag != gone {
        assert Without(children, gone)[..|Without(children, gone)| - 1] == Without(children[..|children| - 1], gone);
      } else {
        assert Without(children, gone) == Without(children[..|children| - 1], gone);
      }
    }
  }

  lemma {:induction false} WithoutConcat(a: seq<Element>, b: seq<Element>, tag: string)
    ensures Without(a + b, tag) == Without(a, tag) + Without(b, tag)
  {
    if b == [] {
      assert a + b == a;
    } else {
      assert (a + b)[..|a + b| - 1] == a + b[..|b| - 1];
      WithoutConcat(a, b[..|b| - 1], tag);
    }
  }

  // ------------------------------------------------------------------ devices

  /** `index` picks positions of `s` in order. */
  ghost predicate Picks(index: seq<nat>, n: nat) {
    && (forall k :: 0 <= k < |index| ==> index[k] < n)
    && (forall j, k :: 0 <= j < k < |index| ==> index[j] < index[k])
  }

  /** `after` is what `index` picks from `before`: all but the elements of this tag, in order. */
  ghost predicate PicksAllBut(before: seq<Element>, after: seq<Element>, tag: string, index: seq<nat>) {
    && Picks(index, |before|) && |index| == |after|
    && (forall i :: 0 <= i < |before| ==> (i in index <==> before[i].tag != tag))
    && (forall k :: 0 <= k < |after| ==> after[k] == before[index[k]])
  }

  ghost predicate AllBut(before: seq<Element>, after: seq<Element>, tag: string) {
    exists index :: PicksAllBut(before, after, tag, index)
  }

  lemma PicksNothing(tag: string)
    ensures PicksAllBut([], [], tag, [])
  {
  }

  lemma PicksOneMore(before: seq<Element>, after: seq<Element>, tag: string, index: seq<nat>, e: Element)
    requires PicksAllBut(before, after, tag, index) && e.tag != tag
    ensures PicksAllBut(before + [e], after + [e], tag, index + [|before|])
  {
    var longer := index + [|before|];
    assert longer[..|index|] == index && longer[|index|] == |before|;
    forall i | 0 <= i <= |before| ensures i in longer <==> (before + [e])[i].tag != tag {
      assert i in longer <==> i in index || i == |before|;
    }
  }

  lemma PicksNoMore(before: seq<Element>, after: seq<Element>, tag: string, index: seq<nat>, e: Element)
    requires PicksAllBut(before, after, tag, index) && e.tag == tag
    ensures PicksAllBut(before + [e], after, tag, index)
  {
  }

  lemma {:induction false} WithoutPicks(children: seq<Element>, tag: string) returns (index: seq<nat>)
    ensures PicksAllBut(children, Without(children, tag), tag, index)
  {
    hide PicksAllBut, Without;
    index := [];
    WithoutLast(children, tag);
    if children == [] {
      PicksNothing(tag);
    } else {
      var before, n := children[..|children| - 1], |children| - 1;
      index := WithoutPicks(before, tag);
      SplitLast(children);
      if children[n].tag != tag {
        PicksOneMore(before, Without(before, tag), tag, index, children[n]);
        index := index + [n];
      } else {
        PicksNoMore(before, Without(before, tag), tag, index, children[n]);
      }
    }
  }

  lemma WithoutLast(children: seq<Element>, tag: string)
    ensures children == [] ==> Without(children, tag) == []
    ensures children != [] ==>
              var before, last := children[..|children| - 1], children[|children| - 1];
              Without(children, tag) == if last.tag == tag then Without(before, tag) else Without(before, tag) + [last]
  {
  }

  lemma WithoutIsAllBut(children: seq<Element>, tag: string)
    ensures AllBut(children, Without(children, tag), tag)
  {
    var index := WithoutPicks(children, tag);
  }

  /** A disk loses its boot entries and nothing else; any other device is as it was. */
  ghost predicate LosesBootOrder(device: Element, kept: Element) {
    if device.tag == "disk" then
      kept == device.(children := kept.children) && AllBut(device.children, kept.children, "boot")
    else kept == device
  }

  lemma UnorderedLosesBootOrder(device: Element)
    ensures LosesBootOrder(device, Unordered(device))
  {
    WithoutIsAllBut(device.children, "boot");
  }

  /** Exactly the cdroms go; what stays keeps its order, and disks lose their boot entries. */
  ghost predicate OnlyCdromsGo(devices: seq<Element>, kept: seq<Element>, index: seq<nat>) {
    && |index| == |kept| && Picks(index, |devices|)
    && (forall i :: 0 <= i < |devices| ==>
          (i in index <==> !(devices[i].tag == "disk" && "device" in devices[i].attrs
                             && devices[i].attrs["device"] == "cdrom")))
    && (forall k :: 0 <= k < |kept| ==> LosesBootOrder(devices[index[k]], kept[k]))
  }

  lemma {:induction false} KeptDevices(devices: seq<Element>) returns (index: seq<nat>)
    ensures OnlyCdromsGo(devices, Kept(devices), index)
  {
    hide Unordered, LosesBootOrder;
    index := [];
    if devices == [] {
    } else {
      var before, n := devices[..|devices| - 1], |devices| - 1;
      index := KeptDevices(before);
      UnorderedLosesBootOrder(devices[n]);
      if !IsCdrom(devices[n]) {
        index := index + [n];
      }
    }
  }

  lemma UnorderedTwice(device: Element)
    ensures Unordered(Unordered(device)) == Unordered(device)
    ensures IsCdrom(Unordered(device)) == IsCdrom(device)
    ensures DiskFile(Unordered(device)) == DiskFile(device)
  {
    WithoutTwice(device.children, "boot");
    WithoutKeepsFirst(device.children, "boot", "source");
  }

  lemma {:induction false} KeptTwice(devices: seq<Element>)
    ensures Kept(Kept(devices)) == Kept(devices)
  {
    hide IsCdrom, Unordered;
    if devices == [] {
    } else {
      var before, last := devices[..|devices| - 1], devices[|devices| - 1];
      KeptTwice(before);
      UnorderedTwice(last);
      if !IsCdrom(last) {
        assert Kept(devices)[..|Kept(before)|] == Kept(before);
      } else {
        assert Kept(devices) == Kept(before);
      }
    }
  }

  lemma {:induction false} KeptFile(devices: seq<Element>)
    ensures FirstFile(Kept(devices)) == FirstFile(devices)
  {
    hide IsCdrom, Unordered, DiskFile;
    if devices == [] {
    } else {
      var before, last := devices[..|devices| - 1], devices[|devices| - 1];
      KeptFile(before);
      UnorderedTwice(last);
      if IsCdrom(last) {
        CdromHasNoDiskFile(last);
        assert Kept(devices) == Kept(before);
      } else {
        assert Kept(devices)[..|Kept(before)|] == Kept(before);
      }
    }
  }

  lemma CdromHasNoDiskFile(device: Element)
    requires IsCdrom(device)
    ensures DiskFile(device) == None
  {
  }

  // ------------------------------------------------------------------ the boot entry

  /** Place `at` follows the first `type`, or ends a list without one. */
  ghost predicate BehindType(after: seq<Element>, at: nat)
    requires at < |after|
  {
    && (forall k :: 0 <= k < at - 1 ==> after[k].tag != "type")
    && (at == 0 || after[at - 1].tag != "type" ==> at == |after| - 1)
  }

  /** One boot entry, for the disk, right behind the first `type` or else last; the rest in order. */
  ghost predicate BootsFromDisk(before: seq<Element>, after: seq<Element>, at: nat) {
    && at < |after| && after[at] == Element("boot", map["dev" := "hd"], "", "", [])
    && (forall k :: 0 <= k < |after| && after[k].tag == "boot" ==> k == at)
    && AllBut(before, after[..at] + after[at + 1..], "boot")
    && BehindType(after, at)
  }

  lemma {:induction false} PinnedBoots(children: seq<Element>)
    ensures BootsFromDisk(children, Pinned(children), AfterType(Without(children, "boot")))
  {
    hide Without, FindAt, AllBut;
    WithoutTwice(children, "boot");
    WithoutIsAllBut(children, "boot");
    InsertedBoots(Without(children, "boot"));
  }

  lemma InsertedBoots(rest: seq<Element>)
    requires forall k :: 0 <= k < |rest| ==> rest[k].tag != "boot"
    ensures var at := AfterType(rest);
            var after := Insert(rest, at, BOOT_DISK);
            && after[at] == BOOT_DISK && after[..at] == rest[..at] && after[at + 1..] == rest[at..]
            && after[..at] + after[at + 1..] == rest
            && (forall k :: 0 <= k < |after| && after[k].tag == "boot" ==> k == at)
            && BehindType(after, at)
  {
    hide FindAt;
    var at := AfterType(rest);
    assert rest == rest[..at] + rest[at..];
  }

  lemma PinnedTwice(children: seq<Element>)
    ensures Pinned(Pinned(children)) == Pinned(children)
  {
    hide FindAt, AfterType, Without;
    WithoutTwice(children, "boot");
    WithoutInserted(Without(children, "boot"), AfterType(Without(children, "boot")));
  }

  lemma WithoutBoot()
    ensures Without([BOOT_DISK], "boot") == []
  {
    assert [BOOT_DISK][1..] == [];
  }

  lemma WithoutInserted(rest: seq<Element>, at: nat)
    requires at <= |rest| && forall k :: 0 <= k < |rest| ==> rest[k].tag != "boot"
    ensures Without(Insert(rest, at, BOOT_DISK), "boot") == rest
  {
    hide Without;
    var a, b := rest[..at], rest[at..];
    WithoutNone(a, "boot");
    WithoutNone(b, "boot");
    WithoutConcat(a + [BOOT_DISK], b, "boot");
    WithoutConcat(a, [BOOT_DISK], "boot");
    WithoutBoot();
    assert a + b == rest;
  }

  // ------------------------------------------------------------------ the whole rewrite

  /** No earlier child has the tag of child `i`. */
  ghost predicate IsFirst(children: seq<Element>, i: nat) {
    i < |children| && forall k :: 0 <= k < i ==> children[k].tag != children[i].tag
  }

  predicate Touched(tag: string) {
    tag == "devices" || tag == "os" || tag == "on_reboot"
  }

  lemma {:induction false} ChangeFirstAt(children: seq<Element>, tag: string, i: nat)
    requires i < |children|
    ensures ChangeFirst(children, tag)[i]
            == if IsFirst(children, i) && children[i].tag == tag then Change(children[i]) else children[i]
    ensures forall k :: 0 <= k < |children| ==> ChangeFirst(children, tag)[k].tag == children[k].tag
  {
    hide Change;
  }

  /** Each child of the root is changed when it is the first with a touched tag, or stays as it is. */
  lemma RewrittenAt(root: Element, i: nat)
    requires i < |root.children|
    ensures var e := root.children[i];
            Rewritten(root).children[i] == if IsFirst(root.children, i) && Touched(e.tag) then Change(e) else e
    ensures |Rewritten(root).children| == |root.children|
    ensures IsFirst(Rewritten(root).children, i) == IsFirst(root.children, i)
  {
    hide Change, ChangeFirst;
    var one := ChangeFirst(root.children, "devices");
    var two := ChangeFirst(one, "os");
    ChangeFirstAt(root.children, "devices", i);
    ChangeFirstAt(one, "os", i);
    ChangeFirstAt(two, "on_reboot", i);
  }

  lemma ChangeTwice(e: Element)
    ensures Change(Change(e)) == Change(e)
  {
    KeptTwice(e.children);
    PinnedTwice(e.children);
  }

  /** Rewriting a rewritten tree changes nothing. */
  lemma RewriteIsIdempotent(root: Element)
    ensures Rewritten(Rewritten(root)) == Rewritten(root)
  {
    hide Rewritten, Change, IsFirst;
    var once := Rewritten(root);
    var twice := Rewritten(once);
    RewrittenKeepsRoot(root);
    RewrittenKeepsRoot(once);
    forall i | 0 <= i < |root.children| ensures twice.children[i] == once.children[i] {
      RewrittenAt(root, i);
      RewrittenAt(once, i);
      ChangeTwice(root.children[i]);
    }
    assert twice.children == once.children;
  }

  lemma RewrittenKeepsRoot(root: Element)
    ensures |Rewritten(root).children| == |root.children|
    ensures Rewritten(root).(children := root.children) == root
  {
  }

  /** The rewrite of a tree, part by part; whatever is not named stays as it was. */
  lemma RewriteDoesWhatItShould(root: Element, i: nat) returns (index: seq<nat>)
    requires i < |root.children|
    ensures |Rewritten(root).children| == |root.children| && Rewritten(root).(children := root.children) == root
    ensures var e, r := root.children[i], Rewritten(root).children[i];
            if !IsFirst(root.children, i) || e.tag !in {"devices", "os", "on_reboot"} then r == e
            else if e.tag == "devices" then
              r.(children := e.children) == e && OnlyCdromsGo(e.children, r.children, index)
            else if e.tag == "os" then
              r.(children := e.children) == e && exists at :: BootsFromDisk(e.children, r.children, at)
            else
              r.(text := e.text) == e && r.text == "restart"
  {
    hide Rewritten, IsFirst, OnlyCdromsGo, BootsFromDisk;
    var e := root.children[i];
    RewrittenKeepsRoot(root);
    RewrittenAt(root, i);
    PinnedBoots(e.children);
    index := KeptDevices(e.children);
  }

  // ------------------------------------------------------------------ what the readers see

  lemma {:induction false} FileBelowAgrees(a: seq<Element>, b: seq<Element>)
    requires |a| == |b|
    requires forall k :: 0 <= k < |a| ==> a[k].tag == b[k].tag
    requires forall k :: 0 <= k < |a| && a[k].tag == "devices" ==> FirstFile(a[k].children) == FirstFile(b[k].children)
    ensures FileBelow(a) == FileBelow(b)
  {
    if a == [] {
    } else {
      FileBelowAgrees(a[1..], b[1..]);
    }
  }

  lemma PrimaryDiskSurvives(root: Element)
    ensures PrimaryDiskPath(Rewritten(root)) == PrimaryDiskPath(root)
  {
    hide Rewritten, IsFirst;
    var r := Rewritten(root);
    RewrittenKeepsRoot(root);
    forall k | 0 <= k < |root.children|
      ensures r.children[k].tag == root.children[k].tag
      ensures root.children[k].tag == "devices" ==>
                FirstFile(r.children[k].children) == FirstFile(root.children[k].children)
    {
      RewrittenAt(root, k);
      KeptFile(root.children[k].children);
    }
    FileBelowAgrees(root.children, r.children);
  }

  lemma NvmeSurvives(root: Element)
    ensures NvmeEnabled(Rewritten(root)) == NvmeEnabled(root)
  {
    hide Rewritten, IsFirst;
    var r := Rewritten(root);
    RewrittenKeepsRoot(root);
    forall i | 0 <= i < |root.children|
      ensures r.children[i].tag == root.children[i].tag
      ensures root.children[i].tag == "metadata" ==> r.children[i] == root.children[i]
    {
      RewrittenAt(root, i);
    }
  }

  /** The VM keeps the disk it boots from and the controller it is attached to. */
  lemma ReadersSeeTheSame(root: Element)
    ensures PrimaryDiskPath(Rewritten(root)) == PrimaryDiskPath(root)
    ensures NvmeEnabled(Rewritten(root)) == NvmeEnabled(root)
  {
    PrimaryDiskSurvives(root);
    NvmeSurvives(root);
  }

  // ------------------------------------------------------------------ what the readers read

  /** Child `k` is the first source. */
  ghost predicate FirstSource(children: seq<Element>, k: int) {
    && 0 <= k < |children| && children[k].tag == "source"
    && forall j :: 0 <= j < k ==> children[j].tag != "source"
  }

  /** A disk proper with a file: its first source names one. */
  ghost predicate IsFileDisk(device: Element, file: string) {
    && device.tag == "disk" && "device" in device.attrs && device.attrs["device"] == "disk"
    && file != ""
    && exists k :: FirstSource(device.children, k) && 0 <= k < |device.children|
                   && "file" in device.children[k].attrs && device.children[k].attrs["file"] == file
  }

  lemma {:induction false} FirstIs(children: seq<Element>, tag: string)
    ensures First(children, tag).None? <==> forall k :: 0 <= k < |children| ==> children[k].tag != tag
    ensures First(children, tag).Some? ==>
              exists k :: 0 <= k < |children| && children[k] == First(children, tag).value && children[k].tag == tag
                          && forall j :: 0 <= j < k ==> children[j].tag != tag
  {
    if children == [] {
    } else {
      var before := children[..|children| - 1];
      FirstIs(before, tag);
      if First(before, tag).Some? {
        var k :| 0 <= k < |before| && before[k] == First(before, tag).value && before[k].tag == tag
                 && forall j :: 0 <= j < k ==> before[j].tag != tag;
        assert children[k] == before[k];
      } else if children[|children| - 1].tag == tag {
        assert children[|children| - 1] == First(children, tag).value;
      }
    }
  }

  lemma OneFirstSource(children: seq<Element>, j: int, k: int)
    requires FirstSource(children, j) && FirstSource(children, k)
    ensures j == k
  {
  }

  lemma DiskFileIs(device: Element, file: string)
    ensures DiskFile(device) == Some(file) <==> IsFileDisk(device, file)
    ensures DiskFile(device) == None ==> forall f :: !IsFileDisk(device, f)
  {
    hide First, FirstSource;
    if device.tag == "disk" && Attr(device, "device") == Some("disk") {
      FirstSourceIs(device.children);
      if First(device.children, "source").Some? {
        var k :| FirstSource(device.children, k) && 0 <= k < |device.children|
                 && device.children[k] == First(device.children, "source").value;
        forall j | FirstSource(device.children, j) ensures j == k {
          OneFirstSource(device.children, j, k);
        }
      }
    }
  }

  lemma FirstSourceIs(children: seq<Element>)
    ensures First(children, "source").None? ==> forall k :: !FirstSource(children, k)
    ensures First(children, "source").Some? ==>
              exists k :: FirstSource(children, k) && 0 <= k < |children|
                          && children[k] == First(children, "source").value
  {
    FirstIs(children, "source");
    if First(children, "source").Some? {
      var k :| 0 <= k < |children| && children[k] == First(children, "source").value && children[k].tag == "source"
               && forall j :: 0 <= j < k ==> children[j].tag != "source";
      assert FirstSource(children, k);
    }
  }

  /** Device `j` of the list is the first with a file, and that is `file`. */
  ghost predicate FirstFileDisk(devices: seq<Element>, j: int, file: string) {
    && 0 <= j < |devices| && IsFileDisk(devices[j], file)
    && forall i :: 0 <= i < j ==> forall f :: !IsFileDisk(devices[i], f)
  }

  ghost predicate NoFileDisk(devices: seq<Element>) {
    forall i :: 0 <= i < |devices| ==> forall f :: !IsFileDisk(devices[i], f)
  }

  lemma {:induction false} FirstFileIs(devices: seq<Element>)
    ensures FirstFile(devices).None? <==> NoFileDisk(devices)
    ensures FirstFile(devices).Some? ==> exists j :: FirstFileDisk(devices, j, FirstFile(devices).value)
  {
    hide DiskFile, IsFileDisk;
    if devices == [] {
    } else {
      var before, n := devices[..|devices| - 1], |devices| - 1;
      FirstFileIs(before);
      DiskFileIs(devices[n], if DiskFile(devices[n]).Some? then DiskFile(devices[n]).value else "");
      if FirstFile(before).Some? {
        var j :| FirstFileDisk(before, j, FirstFile(before).value);
        assert FirstFileDisk(devices, j, FirstFile(devices).value);
        assert IsFileDisk(devices[j], FirstFile(before).value);
      } else if DiskFile(devices[n]).Some? {
        assert FirstFileDisk(devices, n, DiskFile(devices[n]).value);
        assert IsFileDisk(devices[n], DiskFile(devices[n]).value);
      }
    }
  }

  /** Group `i` below the root is the first `devices` with a file-backed disk, its first being `file`. */
  ghost predicate FirstFileGroup(children: seq<Element>, i: int, file: string) {
    && 0 <= i < |children| && children[i].tag == "devices"
    && (exists j :: FirstFileDisk(children[i].children, j, file))
    && forall k :: 0 <= k < i && children[k].tag == "devices" ==> NoFileDisk(children[k].children)
  }

  /** The primary disk is the first file-backed disk in document order; without one there is an error. */
  lemma {:induction false} PrimaryDiskIsFirstFile(root: Element)
    ensures PrimaryDiskPath(root).None? <==>
              forall i :: 0 <= i < |root.children| && root.children[i].tag == "devices" ==>
                NoFileDisk(root.children[i].children)
    ensures PrimaryDiskPath(root).Some? ==>
              exists i :: FirstFileGroup(root.children, i, PrimaryDiskPath(root).value)
  {
    FileBelowIs(root.children);
  }

  lemma {:induction false} FileBelowIs(children: seq<Element>)
    ensures FileBelow(children).None? <==>
              forall i :: 0 <= i < |children| && children[i].tag == "devices" ==> NoFileDisk(children[i].children)
    ensures FileBelow(children).Some? ==> exists i :: FirstFileGroup(children, i, FileBelow(children).value)
  {
    hide FirstFile, NoFileDisk, FirstFileDisk;
    if children == [] {
    } else {
      FirstFileIs(children[0].children);
      if children[0].tag == "devices" && FirstFile(children[0].children).Some? {
        assert FirstFileGroup(children, 0, FileBelow(children).value);
      } else {
        FileBelowIs(children[1..]);
        if FileBelow(children).Some? {
          var i :| FirstFileGroup(children[1..], i, FileBelow(children).value);
          assert FirstFileGroup(children, i + 1, FileBelow(children).value);
        }
      }
    }
  }

  /** The controller is emulated when some metadata entry of that name says so. */
  lemma NvmeIsMarked(root: Element)
    ensures NvmeEnabled(root) <==>
            exists group, entry :: group in root.children && group.tag == "metadata" && entry in group.children
              && entry.tag == "{https://github.com/boxer-vm/boxer}nvme"
              && "enabled" in entry.attrs && entry.attrs["enabled"] == "true"
  {
    if group, entry :| (group in root.children && group.tag == "metadata" && entry in group.children
                        && entry.tag == NVME && Attr(entry, "enabled") == Some("true")) {
      var i :| 0 <= i < |root.children| && root.children[i] == group;
      var j :| 0 <= j < |group.children| && group.children[j] == entry;
    }
  }
}
