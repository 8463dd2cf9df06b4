// The restore that passes over internal tags: exactly when what they hold can never change what it gives back.

module BackupHidden {
  import opened Common
  import opened HashStream
  import opened Backup

  // The same tag but for what an internal one holds.
  predicate Alike(t: Tag, u: Tag) {
    t.id == u.id && t.internal == u.internal && (t.internal || t.data == u.data)
  }

  predicate AlikeTags(tags: seq<Tag>, other: seq<Tag>) {
    |tags| == |other| && forall i :: 0 <= i < |tags| ==> Alike(tags[i], other[i])
  }

  predicate AlikeModules(mods: seq<Module>, other: seq<Module>) {
    && |mods| == |other|
    && forall i :: 0 <= i < |mods| ==> mods[i].id == other[i].id && AlikeTags(mods[i].tags, other[i].tags)
  }

  lemma {:induction false} AlikeReadable(tags: seq<Tag>, other: seq<Tag>)
    requires AlikeTags(tags, other) && ReadableTags(tags, false)
    ensures ReadableTags(other, false)
  {
    if tags != [] {
      assert Alike(tags[0], other[0]);
      forall i | 0 <= i < |tags[1..]| ensures Alike(tags[1..][i], other[1..][i]) {
        assert Alike(tags[i + 1], other[i + 1]);
      }
      AlikeReadable(tags[1..], other[1..]);
    }
  }

  lemma {:induction false} AlikeReadableModules(mods: seq<Module>, other: seq<Module>)
    requires AlikeModules(mods, other) && ReadableModules(mods, false)
    ensures ReadableModules(other, false)
  {
    if mods != [] {
      AlikeReadable(mods[0].tags, other[0].tags);
      AlikeReadableModules(mods[1..], other[1..]);
    }
  }

  // ---------------------------------------------------------------- the first internal tag that reads as an end

  // Tags with one that reads as an end behind others that are read well.
  datatype Cut = Cut(before: seq<Tag>, t: Tag, after: seq<Tag>)

  function CutTags(c: Cut): seq<Tag> {
    c.before + [c.t] + c.after
  }

  predicate Ends(c: Cut) {
    ReadableTags(c.before, false) && c.t.internal && c.t.id % 256 == 0
  }

  lemma FirstShown(tags: seq<Tag>)
    requires tags != [] && GoodIds(Shown(tags, false))
    ensures Readable(tags[0], false) || (tags[0].internal && tags[0].id % 256 == 0)
  {
    if !tags[0].internal {
      assert GoodId(Shown(tags, false)[0]);
    }
  }

  lemma {:induction false} FindCut(tags: seq<Tag>) returns (c: Cut)
    requires !ReadableTags(tags, false) && GoodIds(Shown(tags, false))
    ensures tags == CutTags(c) && Ends(c)
  {
    var rest := tags[1..];
    assert tags == [tags[0]] + rest;
    FirstShown(tags);
    if !Readable(tags[0], false) {
      c := Cut([], tags[0], rest);
      assert [] + [tags[0]] == [tags[0]];
    } else {
      assert GoodIds(Shown(rest, false)) by { ShownRest(tags); }
      c := FindCut(rest);
      c := Cut([tags[0]] + c.before, c.t, c.after);
      assert c.before[1..] + [c.t] + c.after == rest;
    }
  }

  lemma ShownRest(tags: seq<Tag>)
    requires tags != [] && GoodIds(Shown(tags, false))
    ensures GoodIds(Shown(tags[1..], false))
  {
    var all, rest := Shown(tags, false), Shown(tags[1..], false);
    if !Hidden(tags[0], false) {
      forall i | 0 <= i < |rest| ensures GoodId(rest[i]) {
        assert GoodId(all[i + 1]);
      }
    }
  }

  // Modules with such a one behind others that are read well.
  datatype Split = Split(before: seq<Module>, id: nat, cut: Cut, after: seq<Module>)

  function Joint(x: Split): seq<Module> {
    x.before + [Module(x.id, CutTags(x.cut))] + x.after
  }

  predicate Ended(x: Split) {
    ReadableModules(x.before, false) && x.id <= 255 && Ends(x.cut)
  }

  lemma {:induction false} FindSplit(mods: seq<Module>) returns (x: Split)
    requires !ReadableModules(mods, false) && GoodModules(ShownModules(mods, false))
    ensures mods == Joint(x) && Ended(x)
  {
    var m, rest := mods[0], mods[1..];
    var shown := ShownModules(mods, false);
    assert mods == [m] + rest;
    assert shown[0] == Module(m.id, Shown(m.tags, false));
    if !ReadableTags(m.tags, false) {
      var c := FindCut(m.tags);
      x := Split([], m.id, c, rest);
      assert [] + [m] == [m];
    } else {
      assert GoodModules(ShownModules(rest, false)) by {
        assert forall i :: 0 <= i < |rest| ==> ShownModules(rest, false)[i] == shown[i + 1] by { ShownSize(rest); }
        ShownSize(rest);
      }
      x := FindSplit(rest);
      x := Split([m] + x.before, x.id, x.cut, x.after);
      assert x.before[1..] + [Module(x.id, CutTags(x.cut))] + x.after == rest;
    }
  }

  lemma {:induction false} ShownSize(mods: seq<Module>)
    ensures |ShownModules(mods, false)| == |mods|
  {
    if mods != [] { ShownSize(mods[1..]); }
  }

  // ---------------------------------------------------------------- and what it can do

  lemma {:induction false} TagsBytesJoin(a: seq<Tag>, b: seq<Tag>)
    ensures TagsBytes(a + b) == TagsBytes(a) + TagsBytes(b)
  {
    if a == [] {
      assert a + b == b && TagsBytes(a) + TagsBytes(b) == TagsBytes(b);
    } else {
      assert (a + b)[1..] == a[1..] + b;
      TagsBytesJoin(a[1..], b);
      assert TagBytes(a[0]) + (TagsBytes(a[1..]) + TagsBytes(b)) == TagBytes(a[0]) + TagsBytes(a[1..]) + TagsBytes(b);
    }
  }

  lemma {:induction false} ModulesBytesJoin(a: seq<Module>, b: seq<Module>)
    ensures ModulesBytes(a + b) == ModulesBytes(a) + ModulesBytes(b)
  {
    if a == [] {
      assert a + b == b && ModulesBytes(a) + ModulesBytes(b) == ModulesBytes(b);
    } else {
      assert (a + b)[1..] == a[1..] + b;
      ModulesBytesJoin(a[1..], b);
      assert ModuleBytes(a[0]) + (ModulesBytes(a[1..]) + ModulesBytes(b))
          == ModuleBytes(a[0]) + ModulesBytes(a[1..]) + ModulesBytes(b);
    }
  }

  lemma {:induction false} ShownJoin(a: seq<Module>, b: seq<Module>)
    ensures ShownModules(a + b, false) == ShownModules(a, false) + ShownModules(b, false)
  {
    if a == [] {
      assert a + b == b && [] + ShownModules(b, false) == ShownModules(b, false);
    } else {
      assert (a + b)[1..] == a[1..] + b;
      ShownJoin(a[1..], b);
    }
  }

  // The bytes from the split module on: its identifier, the tags read well, the tag that ends it, and more.
  function Onward(x: Split): seq<byte> {
    [x.id % 256]
    + (TagsBytes(x.cut.before) + (TagBytes(x.cut.t) + (TagsBytes(x.cut.after) + END + ModulesBytes(x.after))))
  }

  lemma JointBytes(x: Split)
    ensures ModulesBytes(Joint(x)) == ModulesBytes(x.before) + Onward(x)
  {
    var m := Module(x.id, CutTags(x.cut));
    assert Joint(x) == x.before + ([m] + x.after);
    ModulesBytesJoin(x.before, [m] + x.after);
    assert ([m] + x.after)[1..] == x.after;
    CutBytes(x.cut);
    Regroup([x.id % 256], TagsBytes(x.cut.before), TagBytes(x.cut.t), TagsBytes(x.cut.after), ModulesBytes(x.after));
  }

  lemma Regroup(id: seq<byte>, a: seq<byte>, b: seq<byte>, c: seq<byte>, more: seq<byte>)
    ensures id + (a + b + c) + END + more == id + (a + (b + (c + END + more)))
  {
  }

  lemma CutBytes(c: Cut)
    ensures TagsBytes(CutTags(c)) == TagsBytes(c.before) + TagBytes(c.t) + TagsBytes(c.after)
  {
    TagsBytesJoin(c.before + [c.t], c.after);
    TagsBytesJoin(c.before, [c.t]);
    assert [c.t][1..] == [];
    assert TagsBytes([c.t]) == TagBytes(c.t) + [] == TagBytes(c.t);
  }

  lemma OnwardParts(f: seq<byte>, q: nat, x: Split, p: nat)
    requires Stands(f, q, Onward(x)) && p == q + 1 + |TagsBytes(x.cut.before)|
    ensures Stands(f, q + 1, TagsBytes(x.cut.before)) && Stands(f, p, TagBytes(x.cut.t))
    ensures p + |TagBytes(x.cut.t)| + 4 <= q + |Onward(x)|
  {
    var tail := TagsBytes(x.cut.after) + END + ModulesBytes(x.after);
    var from := TagBytes(x.cut.t) + tail;
    StandsParts(f, q, [x.id % 256], TagsBytes(x.cut.before) + from);
    StandsParts(f, q + 1, TagsBytes(x.cut.before), from);
    StandsParts(f, p, TagBytes(x.cut.t), tail);
  }

  lemma FirstByte(f: seq<byte>, p: nat, t: Tag, c: byte)
    requires Stands(f, p, TagBytes(t)) && t.data == [c]
    ensures p + 5 <= |f| && f[p + 4] == c
  {
    assert f[p + 4] == f[p..p + 5][4] == TagBytes(t)[4];
  }

  // Reading stops behind the four bytes of the tag, and what the tag holds is read as the next module.
  lemma ReadThrough(f: seq<byte>, q: nat, end: nat, x: Split, c: byte)
    requires Stands(f, q, Onward(x)) && q + |Onward(x)| == end && end + 4 <= |f|
    requires Ended(x) && SizedTags(x.cut.before) && x.cut.t.data == [c]
    ensures var at := ModulesAt(f, q, end, false); |at| >= 2 && at[1].id == c
  {
    var p := q + 1 + |TagsBytes(x.cut.before)|;
    OnwardParts(f, q, x, p);
    FirstByte(f, p, x.cut.t, c);
    CutRead(f, q, p, end, x.cut);
    TwoModules(f, q, end, p + 4);
  }

  lemma CutRead(f: seq<byte>, q: nat, p: nat, end: nat, c: Cut)
    requires Stands(f, q + 1, TagsBytes(c.before)) && p == q + 1 + |TagsBytes(c.before)| && Stands(f, p, TagBytes(c.t))
    requires p < end && end + 4 <= |f| && Ends(c) && SizedTags(c.before)
    ensures TagsAt(f, q + 1, end, false).next == p + 4
  {
    ZeroIdEnds(f, p, end, c.t, false);
    TagsRead(f, q + 1, p, end, c.before, false, Read([], p + 4));
  }

  lemma TwoModules(f: seq<byte>, q: nat, end: nat, next: nat)
    requires q < end && next < end && end + 4 <= |f| && TagsAt(f, q + 1, end, false).next == next
    ensures var at := ModulesAt(f, q, end, false); |at| >= 2 && at[1].id == f[next]
  {
    var tags, more := TagsAt(f, q + 1, end, false), TagsAt(f, next + 1, end, false);
    var rest := ModulesAt(f, next, end, false);
    assert rest == [Module(f[next], more.tags)] + ModulesAt(f, more.next, end, false);
    assert ModulesAt(f, q, end, false) == [Module(f[q], tags.tags)] + rest;
  }

  // A byte that is not the identifier of the module behind.
  function Stranger(after: seq<Module>): (c: byte)
    ensures after != [] ==> c != after[0].id
  {
    if after != [] && after[0].id == 0 then 1 else 0
  }

  lemma {:induction false} SizedParts(a: seq<Tag>, b: seq<Tag>)
    ensures SizedTags(a + b) <==> SizedTags(a) && SizedTags(b)
  {
    if a == [] {
      assert a + b == b;
    } else {
      assert (a + b)[1..] == a[1..] + b;
      SizedParts(a[1..], b);
    }
  }

  lemma {:induction false} SizedModuleParts(a: seq<Module>, b: seq<Module>)
    ensures Sized(a + b) <==> Sized(a) && Sized(b)
  {
    if a == [] {
      assert a + b == b;
    } else {
      assert (a + b)[1..] == a[1..] + b;
      SizedModuleParts(a[1..], b);
    }
  }

  lemma SizedJoint(x: Split)
    ensures Sized(Joint(x)) <==>
      && Sized(x.before) && Sized(x.after)
      && SizedTags(x.cut.before) && |x.cut.t.data| < 0x1_0000 && SizedTags(x.cut.after)
  {
    var m := Module(x.id, CutTags(x.cut));
    SizedModuleParts(x.before + [m], x.after);
    SizedModuleParts(x.before, [m]);
    assert [m][1..] == [];
    SizedParts(x.cut.before + [x.cut.t], x.cut.after);
    SizedParts(x.cut.before, [x.cut.t]);
    assert [x.cut.t][1..] == [];
  }

  // The same modules with another content for the tag that reads as an end.
  function Refilled(x: Split, data: seq<byte>): Split {
    x.(cut := x.cut.(t := x.cut.t.(data := data)))
  }

  lemma RefilledAlike(x: Split, data: seq<byte>)
    requires Ended(x)
    ensures AlikeModules(Joint(x), Joint(Refilled(x, data)))
  {
    var a, b := CutTags(x.cut), CutTags(Refilled(x, data).cut);
    forall i | 0 <= i < |a| ensures Alike(a[i], b[i]) {
    }
    var mods, other := Joint(x), Joint(Refilled(x, data));
    forall i | 0 <= i < |mods| ensures mods[i].id == other[i].id && AlikeTags(mods[i].tags, other[i].tags) {
      if i != |x.before| {
        assert mods[i] == other[i];
      }
    }
  }

  lemma JointStands(x: Split, f: seq<byte>, q: nat)
    requires Holds(f, Joint(x)) && q == 1 + |ModulesBytes(x.before)|
    ensures Stands(f, 1, ModulesBytes(x.before)) && Stands(f, q, Onward(x)) && q + |Onward(x)| == |f| - 16
  {
    JointBytes(x);
    StandsParts(f, 1, ModulesBytes(x.before), Onward(x));
  }

  // With a stranger in the tag the modules come back wrong.
  lemma SplitFails(x: Split, f: seq<byte>)
    requires Ended(x) && Sized(Joint(x)) && x.cut.t.data == [Stranger(x.after)] && Holds(f, Joint(x))
    ensures !GivesBack(f, Joint(x))
  {
    var end, q := |f| - 16, 1 + |ModulesBytes(x.before)|;
    JointStands(x, f, q);
    SizedJoint(x);
    var all, at := ModulesAt(f, 1, end, false), ModulesAt(f, q, end, false);
    assert all == ShownModules(x.before, false) + at by { ModulesRead(f, 1, q, end, x.before, false); }
    assert |at| >= 2 && at[1].id == Stranger(x.after) by { ReadThrough(f, q, end, x, Stranger(x.after)); }
    Differ(x, all, at);
  }

  lemma Differ(x: Split, all: seq<Module>, at: seq<Module>)
    requires all == ShownModules(x.before, false) + at && |at| >= 2 && at[1].id == Stranger(x.after)
    ensures all != ShownModules(Joint(x), false)
  {
    var m := Module(x.id, CutTags(x.cut));
    ShownSize(x.before);
    ShownSize(x.after);
    ShownJoin(x.before + [m], x.after);
    ShownJoin(x.before, [m]);
    assert [m][1..] == [];
    var n := |x.before| + 1;
    assert all[n] == at[1];
    if x.after != [] {
      assert ShownModules(Joint(x), false)[n] == ShownModules(x.after, false)[0];
    }
  }

  // ---------------------------------------------------------------- both ways

  // Restoring what was committed, without the internal tags, gives exactly the others.
  ghost predicate Restores<S>(h: Hash<S>, mods: seq<Module>) {
    GivesBack(File(h, mods), mods)
  }

  ghost predicate GivesBack(f: seq<byte>, mods: seq<Module>) {
    |f| >= 16 && ModulesAt(f, 1, |f| - 16, false) == ShownModules(mods, false)
  }

  lemma RestoresGood<S(!new)>(h: Hash<S>, mods: seq<Module>)
    ensures Restores(h, mods) ==> GoodModules(ShownModules(mods, false))
  {
    var f := File(h, mods);
    if |f| >= 16 {
      ModulesAtGood(f, 1, |f| - 16, false);
    }
  }

  lemma NotRestored<S(!new)>(h: Hash<S>, x: Split, f: seq<byte>)
    requires Sixteen(h) && Ended(x) && Sized(Joint(x)) && x.cut.t.data == [Stranger(x.after)]
    requires f == File(h, Joint(x))
    ensures !GivesBack(f, Joint(x))
  {
    assert Holds(f, Joint(x)) by { FileParts(h, Joint(x), f); }
    SplitFails(x, f);
  }

  lemma Refill(x: Split) returns (other: seq<Module>)
    requires Ended(x) && Sized(Joint(x))
    ensures other == Joint(Refilled(x, [Stranger(x.after)])) && AlikeModules(Joint(x), other) && Sized(other)
  {
    other := Joint(Refilled(x, [Stranger(x.after)]));
    RefilledAlike(x, [Stranger(x.after)]);
    SizedJoint(x);
    SizedJoint(Refilled(x, [Stranger(x.after)]));
  }

  lemma Readably<S(!new)>(h: Hash<S>, mods: seq<Module>)
    requires Sixteen(h) && Sized(mods) && ReadableModules(mods, false)
    ensures Restores(h, mods)
  {
    var f := File(h, mods);
    assert Holds(f, mods) by { FileParts(h, mods, f); }
    HeldRead(mods, false, f);
  }

  lemma Unreadably<S(!new)>(h: Hash<S>, mods: seq<Module>) returns (other: seq<Module>)
    requires Sixteen(h) && Sized(mods) && !ReadableModules(mods, false)
    ensures AlikeModules(mods, other) && Sized(other) && !Restores(h, other)
  {
    if GoodModules(ShownModules(mods, false)) {
      var x := FindSplit(mods);
      other := Refill(x);
      NotRestored(h, Refilled(x, [Stranger(x.after)]), File(h, other));
    } else {
      other := mods;
      RestoresGood(h, mods);
    }
  }

  ghost predicate AlwaysRestores<S(!new)>(h: Hash<S>, mods: seq<Module>) {
    forall other :: AlikeModules(mods, other) && Sized(other) ==> Restores(h, other)
  }

  // A restore that is not internal gives exactly the tags that are not, whatever the internal ones hold, if and only if
  // every module has an identifier up to 255, every tag that is not internal one from 1 to 255, and no internal tag one
  // that is a multiple of 256.
  lemma HiddenNeverMatters<S(!new)>(h: Hash<S>, mods: seq<Module>)
    requires Sixteen(h) && Sized(mods)
    ensures AlwaysRestores(h, mods) <==> ReadableModules(mods, false)
  {
    if ReadableModules(mods, false) {
      forall other | AlikeModules(mods, other) && Sized(other) ensures Restores(h, other) {
        AlikeReadableModules(mods, other);
        Readably(h, other);
      }
    } else {
      var other := Unreadably(h, mods);
    }
  }

  // ---------------------------------------------------------------- why whatever they hold

  // A module whose only tag reads as an end, and an empty one.
  function Chance(data: seq<byte>): seq<Module> {
    [Module(1, [Tag(0, true, data)]), Module(2, [])]
  }

  lemma ChanceBytes(data: seq<byte>)
    requires |data| == 5
    ensures ModulesBytes(Chance(data)) == [1, 0, 1, 5, 0] + data + [0, 0, 0, 0, 2, 0, 0, 0, 0]
  {
    var mods := Chance(data);
    var t := mods[0].tags[0];
    assert mods[0].tags[1..] == [] && mods[1..] == [mods[1]] && mods[1..][1..] == [];
    assert TagBytes(t) == [0, 1, 5, 0] + data;
    assert TagsBytes(mods[0].tags) == TagBytes(t) + [] == TagBytes(t);
    assert ModulesBytes(mods[1..]) == ModuleBytes(mods[1]) + [] == [2, 0, 0, 0, 0];
    assert ModuleBytes(mods[0]) == [1] + ([0, 1, 5, 0] + data) + [0, 0, 0, 0];
  }

  lemma ChanceRead(f: seq<byte>, end: nat)
    requires end == 20 && |f| == 36
    requires f[1] == 1 && f[2] == 0 && f[6] == 2 && f[7] == 5 && f[8] == 1 && f[9] == 5 && f[10] == 0 && f[16] == 0
    ensures ModulesAt(f, 1, end, false) == [Module(1, []), Module(2, [])]
  {
    assert TagsAt(f, 2, end, false) == Read([], 6);
    assert TagsAt(f, 16, end, false) == Read([], 20);
    assert Size(f, 7) == 5;
    assert TagsAt(f, 7, end, false) == Read([], 20);
    assert ModulesAt(f, 20, end, false) == [];
    assert ModulesAt(f, 6, end, false) == [Module(2, [])];
  }

  // The content of such a tag can make up for it: what it holds is read as the identifier of the next module and an
  // internal tag that takes in the rest of its own module and the next one's identifier.
  lemma HealedByChance<S(!new)>(h: Hash<S>, mods: seq<Module>)
    requires Sixteen(h) && mods == Chance([2, 5, 1, 5, 0])
    ensures !ReadableModules(mods, false) && Restores(h, mods)
  {
    var f := File(h, mods);
    assert Holds(f, mods) by { FileParts(h, mods, f); }
    ChanceHolds(f, mods);
    ChanceShown(mods);
  }

  lemma ChanceStands(f: seq<byte>, mods: seq<Module>)
    requires mods == Chance([2, 5, 1, 5, 0]) && Holds(f, mods)
    ensures |f| == 36 && f[1] == 1 && f[2] == 0 && f[6] == 2 && f[7] == 5 && f[8] == 1 && f[9] == 5 && f[10] == 0
    ensures f[16] == 0
  {
    ChanceBytes([2, 5, 1, 5, 0]);
    assert f[1..20] == [1, 0, 1, 5, 0] + [2, 5, 1, 5, 0] + [0, 0, 0, 0, 2, 0, 0, 0, 0];
    assert forall i :: 0 <= i < 19 ==> f[i + 1] == f[1..20][i];
  }

  lemma ChanceHolds(f: seq<byte>, mods: seq<Module>)
    requires mods == Chance([2, 5, 1, 5, 0]) && Holds(f, mods)
    ensures ModulesAt(f, 1, |f| - 16, false) == [Module(1, []), Module(2, [])]
  {
    ChanceStands(f, mods);
    ChanceRead(f, |f| - 16);
  }

  lemma ChanceShown(mods: seq<Module>)
    requires mods == Chance([2, 5, 1, 5, 0])
    ensures ShownModules(mods, false) == [Module(1, []), Module(2, [])] && !ReadableModules(mods, false)
  {
    assert mods[0].tags[1..] == [] && mods[1..] == [mods[1]] && mods[1..][1..] == [];
    assert Shown(mods[0].tags, false) == [];
    assert !Readable(mods[0].tags[0], false);
  }
}
