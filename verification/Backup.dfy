// The session backup file: what a commit writes, what a restore reads back, and the digest between them.

module Backup {
  import opened Common
  import opened HashStream
  import Md5

  datatype Tag = Tag(id: nat, internal: bool, data: seq<byte>)

  datatype Module = Module(id: nat, tags: seq<Tag>)

  const VERSION: byte := 1

  // ---------------------------------------------------------------- the format

  // Identifier (its low byte), internal flag, size with its low byte first, data.
  function TagBytes(t: Tag): seq<byte> {
    [t.id % 256, if t.internal then 1 else 0, |t.data| % 256, |t.data| / 256 % 256] + t.data
  }

  const END: seq<byte> := [0, 0, 0, 0]

  function TagsBytes(tags: seq<Tag>): seq<byte> {
    if tags == [] then [] else TagBytes(tags[0]) + TagsBytes(tags[1..])
  }

  function ModuleBytes(m: Module): seq<byte> {
    [m.id % 256] + TagsBytes(m.tags) + END
  }

  function ModulesBytes(mods: seq<Module>): seq<byte> {
    if mods == [] then [] else ModuleBytes(mods[0]) + ModulesBytes(mods[1..])
  }

  function Body(mods: seq<Module>): seq<byte> {
    [VERSION] + ModulesBytes(mods)
  }

  // A file of one module with one tag, byte by byte.
  lemma Layout(m: Module, t: Tag)
    requires m.tags == [t] && m.id <= 255 && t.id <= 255 && |t.data| < 0x1_0000
    ensures var b := Body([m]);
      && |b| == 10 + |t.data| && b[0] == 1 && b[1] == m.id
      && b[2] == t.id && (if t.internal then b[3] == 1 else b[3] == 0)
      && b[4] as int + 256 * (b[5] as int) == |t.data| && b[6..6 + |t.data|] == t.data
      && b[6 + |t.data|..] == [0, 0, 0, 0]
  {
    assert m.tags[1..] == [] && [m][1..] == [];
    assert TagsBytes(m.tags) == TagBytes(t) + [] == TagBytes(t);
    assert ModulesBytes([m]) == ModuleBytes(m) + ModulesBytes([]) == ModuleBytes(m);
    assert Body([m]) == [VERSION, m.id] + TagBytes(t) + END;
  }

  // The digest is sixteen bytes long.
  ghost predicate Sixteen<S(!new)>(h: Hash<S>) {
    forall s: S :: |h.store(s)| == 16
  }

  lemma Md5IsSixteen()
    ensures Sixteen(Md5.MD5)
  {
  }

  function File<S>(h: Hash<S>, mods: seq<Module>): seq<byte> {
    Body(mods) + Digest(h, Body(mods))
  }

  // ---------------------------------------------------------------- reading

  // `size` bytes at a place in the file, as far as the file goes.
  function Slice(f: seq<byte>, p: nat, size: nat): seq<byte> {
    if p + size <= |f| then f[p..p + size] else if p <= |f| then f[p..] else []
  }

  function Size(f: seq<byte>, p: nat): nat
    requires p + 4 <= |f|
  {
    var low: int, high: int := f[p + 2], f[p + 3];
    low + 256 * high
  }

  function TagAt(f: seq<byte>, p: nat): Tag
    requires p + 4 <= |f|
  {
    Tag(f[p], f[p + 1] % 2 == 1, Slice(f, p + 4, Size(f, p)))
  }

  // Tags read, and where they end.
  datatype Read = Read(tags: seq<Tag>, next: nat)

  function Prepend(tags: seq<Tag>, r: Read): Read {
    Read(tags + r.tags, r.next)
  }

  // The tags from `p` on, up to an identifier of zero.
  function TagsAt(f: seq<byte>, p: nat, end: nat, internal: bool): (r: Read)
    requires end + 4 <= |f|
    ensures r.next >= p && (p < end ==> r.next >= p + 4)
    decreases if p < end then end - p else 0
  {
    if p >= end then Read([], p)
    else if f[p] == 0 then Read([], p + 4)
    else
      Prepend(if !internal && f[p + 1] != 0 then [] else [TagAt(f, p)],
              TagsAt(f, p + 4 + Size(f, p), end, internal))
  }

  function ModulesAt(f: seq<byte>, p: nat, end: nat, internal: bool): seq<Module>
    requires end + 4 <= |f|
    decreases if p < end then end - p else 0
  {
    if p >= end then []
    else
      var tags := TagsAt(f, p + 1, end, internal);
      [Module(f[p], tags.tags)] + ModulesAt(f, tags.next, end, internal)
  }

  lemma PrependTwice(a: seq<Tag>, b: seq<Tag>, r: Read)
    ensures Prepend(a, Prepend(b, r)) == Prepend(a + b, r)
    ensures Prepend(a, Prepend([], r)) == Prepend(a, r)
  {
    assert a + (b + r.tags) == a + b + r.tags;
  }

  method ReadTags(f: seq<byte>, start: nat, end: nat, internal: bool) returns (tags: seq<Tag>, p: nat)
    requires end + 4 <= |f|
    ensures Read(tags, p) == TagsAt(f, start, end, internal)
  {
    tags, p := [], start;
    while p < end
      invariant TagsAt(f, start, end, internal) == Prepend(tags, TagsAt(f, p, end, internal))
      decreases end - p
    {
      if f[p] == 0 {
        p := p + 4;
        return;
      }
      var next := p + 4 + Size(f, p);
      PrependTwice(tags, [TagAt(f, p)], TagsAt(f, next, end, internal));
      if internal || f[p + 1] == 0 {
        tags := tags + [TagAt(f, p)];
      }
      p := next;
    }
  }

  ghost predicate Genuine<S>(h: Hash<S>, f: seq<byte>) {
    |f| >= 16 && f[0] == VERSION && Digest(h, f[..|f| - 16]) == f[|f| - 16..]
  }

  // An empty file cannot be mapped, and a file of another version is turned away unread; any other has to be long
  // enough for the digest.
  predicate Checkable(f: seq<byte>) {
    f == [] || f[0] != VERSION || |f| >= 16
  }

  method Check<S>(h: Hash<S>, f: seq<byte>) returns (ok: bool)
    requires Checkable(f)
    ensures ok == Genuine(h, f)
  {
    if f == [] || f[0] != VERSION {
      return false;
    }
    var end := |f| - 16;
    var md5 := new State(h);
    var rc := md5.Process(f[..end]);
    assert [] + f[..end] == f[..end];
    var digest;
    rc, digest := md5.Done();
    return digest == f[end..];
  }

  lemma ModulesAtStep(f: seq<byte>, p: nat, end: nat, internal: bool, mods: seq<Module>, tags: seq<Tag>, next: nat)
    requires end + 4 <= |f| && p < end && TagsAt(f, p + 1, end, internal) == Read(tags, next)
    ensures mods + ModulesAt(f, p, end, internal) == mods + [Module(f[p], tags)] + ModulesAt(f, next, end, internal)
  {
    var after := ModulesAt(f, next, end, internal);
    assert mods + ([Module(f[p], tags)] + after) == mods + [Module(f[p], tags)] + after;
  }

  method ReadModules(f: seq<byte>, end: nat, internal: bool) returns (mods: seq<Module>)
    requires end + 4 <= |f|
    ensures mods == ModulesAt(f, 1, end, internal)
  {
    var p := 1;
    mods := [];
    while p < end
      invariant ModulesAt(f, 1, end, internal) == mods + ModulesAt(f, p, end, internal)
      decreases end - p
    {
      var tags, next := ReadTags(f, p + 1, end, internal);
      ModulesAtStep(f, p, end, internal, mods, tags, next);
      p, mods := next, mods + [Module(f[p], tags)];
    }
    assert mods + [] == mods;
  }

  // Astray: the digest is sought before the beginning of the file, and from there on nothing is modelled.
  datatype Outcome = TurnedAway | Restored(mods: seq<Module>) | Astray

  // Checks version and digest, then reads the modules.
  method Restore<S>(h: Hash<S>, f: seq<byte>, internal: bool) returns (r: Outcome)
    ensures r == if !Checkable(f) then Astray
                 else if Genuine(h, f) then Restored(ModulesAt(f, 1, |f| - 16, internal)) else TurnedAway
    ensures f == [] || f[0] != VERSION ==> r.TurnedAway?
    ensures |f| >= 16 && Digest(h, f[..|f| - 16]) != f[|f| - 16..] ==> r.TurnedAway?
    ensures |f| >= 16 && f[0] == VERSION && Digest(h, f[..|f| - 16]) == f[|f| - 16..] ==> r.Restored?
    ensures r.Astray? <==> 0 < |f| < 16 && f[0] == VERSION
  {
    if f != [] && f[0] == VERSION && |f| < 16 {
      return Astray;
    }
    var ok := Check(h, f);
    if !ok {
      return TurnedAway;
    }
    var mods := ReadModules(f, |f| - 16, internal);
    return Restored(mods);
  }

  // ---------------------------------------------------------------- the round trip

  // Sizes have sixteen bits.
  predicate SizedTags(tags: seq<Tag>) {
    tags == [] || (|tags[0].data| < 0x1_0000 && SizedTags(tags[1..]))
  }

  predicate Sized(mods: seq<Module>) {
    mods == [] || (SizedTags(mods[0].tags) && Sized(mods[1..]))
  }

  // A tag that the restore passes over.
  predicate Hidden(t: Tag, internal: bool) {
    !internal && t.internal
  }

  // What comes back has to have an identifier from 1 to 255; what is passed over must not read as an end.
  predicate Readable(t: Tag, internal: bool) {
    if Hidden(t, internal) then t.id % 256 != 0 else 1 <= t.id <= 255
  }

  predicate ReadableTags(tags: seq<Tag>, internal: bool) {
    tags == [] || (Readable(tags[0], internal) && ReadableTags(tags[1..], internal))
  }

  predicate ReadableModules(mods: seq<Module>, internal: bool) {
    mods == [] || (mods[0].id <= 255 && ReadableTags(mods[0].tags, internal) && ReadableModules(mods[1..], internal))
  }

  // Everything when the restore is internal; without the internal tags otherwise.
  function Shown(tags: seq<Tag>, internal: bool): seq<Tag> {
    if tags == [] then []
    else if Hidden(tags[0], internal) then Shown(tags[1..], internal)
    else [tags[0]] + Shown(tags[1..], internal)
  }

  function ShownModules(mods: seq<Module>, internal: bool): seq<Module> {
    if mods == [] then []
    else [Module(mods[0].id, Shown(mods[0].tags, internal))] + ShownModules(mods[1..], internal)
  }

  lemma {:induction false} ShownAll(tags: seq<Tag>)
    ensures Shown(tags, true) == tags
  {
    if tags != [] {
      ShownAll(tags[1..]);
    }
  }

  lemma {:induction false} ShownModulesAll(mods: seq<Module>)
    ensures ShownModules(mods, true) == mods
  {
    if mods != [] {
      ShownAll(mods[0].tags);
      ShownModulesAll(mods[1..]);
    }
  }

  // The bytes `b` stand at `p`.
  predicate Stands(f: seq<byte>, p: nat, b: seq<byte>) {
    p + |b| <= |f| && f[p..p + |b|] == b
  }

  lemma StandsParts(f: seq<byte>, p: nat, a: seq<byte>, b: seq<byte>)
    requires Stands(f, p, a + b)
    ensures Stands(f, p, a) && Stands(f, p + |a|, b)
  {
    var s := f[p..p + |a + b|];
    assert f[p..p + |a|] == s[..|a|] && f[p + |a|..p + |a| + |b|] == s[|a|..];
  }

  lemma TagRead(f: seq<byte>, p: nat, t: Tag)
    requires Stands(f, p, TagBytes(t)) && |t.data| < 0x1_0000
    ensures Size(f, p) == |t.data| && f[p] == t.id % 256 && (f[p + 1] != 0 <==> t.internal)
    ensures t.id <= 255 ==> TagAt(f, p) == t
  {
    var b := TagBytes(t);
    assert f[p] == f[p..p + |b|][0] == b[0] && f[p + 1] == f[p..p + |b|][1] == b[1];
    assert f[p + 2] == f[p..p + |b|][2] == b[2] && f[p + 3] == f[p..p + |b|][3] == b[3];
    assert f[p + 4..p + 4 + |t.data|] == f[p..p + |b|][4..] == b[4..] == t.data;
  }

  lemma TagsAtTag(f: seq<byte>, p: nat, end: nat, t: Tag, internal: bool)
    requires Stands(f, p, TagBytes(t)) && |t.data| < 0x1_0000 && Readable(t, internal) && p < end && end + 4 <= |f|
    ensures TagsAt(f, p, end, internal)
         == Prepend(if Hidden(t, internal) then [] else [t], TagsAt(f, p + |TagBytes(t)|, end, internal))
  {
    TagRead(f, p, t);
  }

  // A tag identifier whose low byte is zero reads as the end of its module, and so does the end.
  lemma ZeroIdEnds(f: seq<byte>, p: nat, end: nat, t: Tag, internal: bool)
    requires Stands(f, p, TagBytes(t)) && t.id % 256 == 0 && p < end && end + 4 <= |f|
    ensures TagsAt(f, p, end, internal) == Read([], p + 4)
  {
    assert f[p] == f[p..p + |TagBytes(t)|][0] == TagBytes(t)[0];
  }

  lemma TagsAtEnd(f: seq<byte>, p: nat, end: nat, internal: bool)
    requires Stands(f, p, END) && p < end && end + 4 <= |f|
    ensures TagsAt(f, p, end, internal) == Read([], p + 4)
  {
    assert f[p] == f[p..p + 4][0] == 0;
  }

  lemma ShownStep(tags: seq<Tag>, internal: bool, r: Read)
    requires tags != []
    ensures Prepend(if Hidden(tags[0], internal) then [] else [tags[0]], Prepend(Shown(tags[1..], internal), r))
         == Prepend(Shown(tags, internal), r)
  {
    PrependTwice(if Hidden(tags[0], internal) then [] else [tags[0]], Shown(tags[1..], internal), r);
    assert [] + Shown(tags[1..], internal) == Shown(tags[1..], internal);
  }

  // Reading from `p` gives the tags shown, and then the rest.
  ghost predicate Reads(f: seq<byte>, p: nat, end: nat, internal: bool, tags: seq<Tag>, rest: Read) {
    end + 4 <= |f| && TagsAt(f, p, end, internal) == Prepend(Shown(tags, internal), rest)
  }

  lemma ReadsJoin(tags: seq<Tag>, internal: bool, a: Read, b: Read, r: Read)
    requires tags != [] && a == Prepend(if Hidden(tags[0], internal) then [] else [tags[0]], b)
    requires b == Prepend(Shown(tags[1..], internal), r)
    ensures a == Prepend(Shown(tags, internal), r)
  {
    ShownStep(tags, internal, r);
  }

  lemma ReadsStep(f: seq<byte>, p: nat, next: nat, end: nat, internal: bool, tags: seq<Tag>, rest: Read)
    requires tags != [] && end + 4 <= |f| && Reads(f, next, end, internal, tags[1..], rest)
    requires TagsAt(f, p, end, internal)
          == Prepend(if Hidden(tags[0], internal) then [] else [tags[0]], TagsAt(f, next, end, internal))
    ensures Reads(f, p, end, internal, tags, rest)
  {
    ReadsJoin(tags, internal, TagsAt(f, p, end, internal), TagsAt(f, next, end, internal), rest);
  }

  lemma FirstTagRead(f: seq<byte>, p: nat, next: nat, end: nat, internal: bool, tags: seq<Tag>, rest: Read)
    requires tags != [] && Stands(f, p, TagBytes(tags[0])) && p + |TagBytes(tags[0])| == next && p < end
    requires |tags[0].data| < 0x1_0000 && Readable(tags[0], internal)
    requires Reads(f, next, end, internal, tags[1..], rest)
    ensures Reads(f, p, end, internal, tags, rest)
  {
    TagsAtTag(f, p, end, tags[0], internal);
    ReadsStep(f, p, next, end, internal, tags, rest);
  }

  lemma StandTags(f: seq<byte>, p: nat, tags: seq<Tag>)
    requires tags != [] && Stands(f, p, TagsBytes(tags))
    ensures Stands(f, p, TagBytes(tags[0])) && Stands(f, p + |TagBytes(tags[0])|, TagsBytes(tags[1..]))
    ensures |TagsBytes(tags)| == |TagBytes(tags[0])| + |TagsBytes(tags[1..])|
  {
    StandsParts(f, p, TagBytes(tags[0]), TagsBytes(tags[1..]));
  }

  lemma {:induction false} TagsRead(f: seq<byte>, p: nat, q: nat, end: nat, tags: seq<Tag>, internal: bool, rest: Read)
    requires Stands(f, p, TagsBytes(tags)) && q == p + |TagsBytes(tags)| && q < end && end + 4 <= |f|
    requires SizedTags(tags) && ReadableTags(tags, internal) && rest == TagsAt(f, q, end, internal)
    ensures Reads(f, p, end, internal, tags, rest)
    decreases |tags|
  {
    if tags == [] {
      assert [] + rest.tags == rest.tags;
    } else {
      StandTags(f, p, tags);
      var next := p + |TagBytes(tags[0])|;
      TagsRead(f, next, q, end, tags[1..], internal, rest);
      FirstTagRead(f, p, next, end, internal, tags, rest);
    }
  }

  lemma ModuleRead(f: seq<byte>, p: nat, end: nat, m: Module, internal: bool)
    requires Stands(f, p, ModuleBytes(m)) && p + |ModuleBytes(m)| <= end && end + 4 <= |f|
    requires SizedTags(m.tags) && ReadableTags(m.tags, internal)
    ensures f[p] == m.id % 256
    ensures TagsAt(f, p + 1, end, internal) == Read(Shown(m.tags, internal), p + |ModuleBytes(m)|)
  {
    StandsParts(f, p, [m.id % 256] + TagsBytes(m.tags), END);
    StandsParts(f, p, [m.id % 256], TagsBytes(m.tags));
    assert f[p] == f[p..p + 1][0] == m.id % 256;
    var q := p + 1 + |TagsBytes(m.tags)|;
    TagsAtEnd(f, q, end, internal);
    TagsRead(f, p + 1, q, end, m.tags, internal, Read([], q + 4));
    assert Shown(m.tags, internal) + [] == Shown(m.tags, internal);
  }

  // Reading from `p` gives the modules shown, and then what stands at `q`.
  ghost predicate ReadsModules(f: seq<byte>, p: nat, end: nat, internal: bool, mods: seq<Module>, q: nat) {
    && end + 4 <= |f|
    && ModulesAt(f, p, end, internal) == ShownModules(mods, internal) + ModulesAt(f, q, end, internal)
  }

  lemma ReadsModulesStep(f: seq<byte>, p: nat, next: nat, end: nat, internal: bool, mods: seq<Module>, q: nat)
    requires mods != [] && p < end && end + 4 <= |f| && f[p] == mods[0].id
    requires TagsAt(f, p + 1, end, internal) == Read(Shown(mods[0].tags, internal), next)
    requires ReadsModules(f, next, end, internal, mods[1..], q)
    ensures ReadsModules(f, p, end, internal, mods, q)
  {
    var head := [Module(mods[0].id, Shown(mods[0].tags, internal))];
    ReadOn(head, ShownModules(mods[1..], internal), ModulesAt(f, q, end, internal));
  }

  lemma ReadOn(head: seq<Module>, rest: seq<Module>, after: seq<Module>)
    ensures head + (rest + after) == head + rest + after
  {
  }

  lemma FirstModuleRead(f: seq<byte>, p: nat, next: nat, end: nat, internal: bool, mods: seq<Module>, q: nat)
    requires mods != [] && Stands(f, p, ModuleBytes(mods[0])) && p + |ModuleBytes(mods[0])| == next <= end
    requires mods[0].id <= 255 && SizedTags(mods[0].tags) && ReadableTags(mods[0].tags, internal)
    requires ReadsModules(f, next, end, internal, mods[1..], q)
    ensures ReadsModules(f, p, end, internal, mods, q)
  {
    ModuleRead(f, p, end, mods[0], internal);
    ReadsModulesStep(f, p, next, end, internal, mods, q);
  }

  lemma StandModules(f: seq<byte>, p: nat, mods: seq<Module>)
    requires mods != [] && Stands(f, p, ModulesBytes(mods))
    ensures Stands(f, p, ModuleBytes(mods[0])) && Stands(f, p + |ModuleBytes(mods[0])|, ModulesBytes(mods[1..]))
    ensures |ModulesBytes(mods)| == |ModuleBytes(mods[0])| + |ModulesBytes(mods[1..])|
  {
    StandsParts(f, p, ModuleBytes(mods[0]), ModulesBytes(mods[1..]));
  }

  lemma {:induction false} ModulesRead(f: seq<byte>, p: nat, q: nat, end: nat, mods: seq<Module>, internal: bool)
    requires Stands(f, p, ModulesBytes(mods)) && p + |ModulesBytes(mods)| == q <= end && end + 4 <= |f|
    requires Sized(mods) && ReadableModules(mods, internal)
    ensures ReadsModules(f, p, end, internal, mods, q)
    decreases |mods|
  {
    if mods == [] {
      assert [] + ModulesAt(f, q, end, internal) == ModulesAt(f, q, end, internal);
    } else {
      StandModules(f, p, mods);
      var next := p + |ModuleBytes(mods[0])|;
      ModulesRead(f, next, q, end, mods[1..], internal);
      FirstModuleRead(f, p, next, end, internal, mods, q);
    }
  }

  // ---------------------------------------------------------------- what comes back

  predicate GoodId(t: Tag) {
    1 <= t.id <= 255
  }

  predicate GoodIds(tags: seq<Tag>) {
    forall i :: 0 <= i < |tags| ==> GoodId(tags[i])
  }

  predicate GoodModules(mods: seq<Module>) {
    forall i :: 0 <= i < |mods| ==> mods[i].id <= 255 && GoodIds(mods[i].tags)
  }

  lemma {:induction false} TagsAtGood(f: seq<byte>, p: nat, end: nat, internal: bool)
    requires end + 4 <= |f|
    ensures GoodIds(TagsAt(f, p, end, internal).tags)
    decreases if p < end then end - p else 0
  {
    if p < end && f[p] != 0 {
      TagsAtGood(f, p + 4 + Size(f, p), end, internal);
    }
  }

  // Whatever a file holds, the tags read from it have identifiers from 1 to 255.
  lemma {:induction false} ModulesAtGood(f: seq<byte>, p: nat, end: nat, internal: bool)
    requires end + 4 <= |f|
    ensures GoodModules(ModulesAt(f, p, end, internal))
    decreases if p < end then end - p else 0
  {
    if p < end {
      var tags := TagsAt(f, p + 1, end, internal);
      TagsAtGood(f, p + 1, end, internal);
      ModulesAtGood(f, tags.next, end, internal);
    }
  }

  lemma {:induction false} GoodReadable(tags: seq<Tag>)
    requires GoodIds(tags)
    ensures ReadableTags(tags, true)
  {
    if tags != [] {
      assert GoodId(tags[0]);
      forall i | 0 <= i < |tags[1..]| ensures GoodId(tags[1..][i]) {
        assert GoodId(tags[i + 1]);
      }
      GoodReadable(tags[1..]);
    }
  }

  lemma {:induction false} GoodReadableModules(mods: seq<Module>)
    requires GoodModules(mods)
    ensures ReadableModules(mods, true)
  {
    if mods != [] {
      GoodReadable(mods[0].tags);
      GoodReadableModules(mods[1..]);
    }
  }

  // The modules stand between the version and the digest.
  predicate Holds(f: seq<byte>, mods: seq<Module>) {
    Stands(f, 1, ModulesBytes(mods)) && |f| == 1 + |ModulesBytes(mods)| + 16
  }

  lemma HeldRead(mods: seq<Module>, internal: bool, f: seq<byte>)
    requires Sized(mods) && ReadableModules(mods, internal) && Holds(f, mods)
    ensures ModulesAt(f, 1, |f| - 16, internal) == ShownModules(mods, internal)
  {
    var end := |f| - 16;
    assert ReadsModules(f, 1, end, internal, mods, end) by { ModulesRead(f, 1, end, end, mods, internal); }
    assert ModulesAt(f, end, end, internal) == [];
    assert ShownModules(mods, internal) + [] == ShownModules(mods, internal);
  }

  lemma BackIfGood(mods: seq<Module>, back: seq<Module>)
    requires GoodModules(back) && (ReadableModules(mods, true) ==> back == ShownModules(mods, true))
    ensures back == mods <==> ReadableModules(mods, true)
  {
    ShownModulesAll(mods);
    if back == mods {
      GoodReadableModules(mods);
    }
  }

  lemma HeldBack(mods: seq<Module>, f: seq<byte>)
    requires Sized(mods) && Holds(f, mods)
    ensures ModulesAt(f, 1, |f| - 16, true) == mods <==> ReadableModules(mods, true)
  {
    if ReadableModules(mods, true) {
      HeldRead(mods, true, f);
    }
    ModulesAtGood(f, 1, |f| - 16, true);
    BackIfGood(mods, ModulesAt(f, 1, |f| - 16, true));
  }

  // A committed file passes the check, and an internal restore gives back the saved modules and tags in their order if
  // and only if every module has an identifier up to 255 and every tag one from 1 to 255.
  lemma RoundTrip<S(!new)>(h: Hash<S>, mods: seq<Module>, f: seq<byte>)
    requires Sixteen(h) && Sized(mods) && f == File(h, mods)
    ensures Genuine(h, f)
    ensures ModulesAt(f, 1, |f| - 16, true) == mods <==> ReadableModules(mods, true)
  {
    FileParts(h, mods, f);
    HeldBack(mods, f);
  }

  lemma FileParts<S(!new)>(h: Hash<S>, mods: seq<Module>, f: seq<byte>)
    requires Sixteen(h) && f == File(h, mods)
    ensures Genuine(h, f) && Holds(f, mods)
  {
    DigestSize(h, Body(mods));
    BodyParts(Body(mods), Digest(h, Body(mods)), f);
    StandsFirst(f, ModulesBytes(mods), Digest(h, Body(mods)));
  }

  lemma DigestSize<S(!new)>(h: Hash<S>, m: seq<byte>)
    requires Sixteen(h)
    ensures |Digest(h, m)| == 16
  {
  }

  lemma BodyParts(body: seq<byte>, digest: seq<byte>, f: seq<byte>)
    requires f == body + digest && |digest| == 16
    ensures |f| >= 16 && f[..|f| - 16] == body && f[|f| - 16..] == digest
  {
  }

  lemma StandsFirst(f: seq<byte>, b: seq<byte>, digest: seq<byte>)
    requires f == [VERSION] + b + digest
    ensures Stands(f, 1, b) && f[0] == VERSION
  {
    assert f[1..1 + |b|] == b;
  }

  // ---------------------------------------------------------------- writing

  const IOV_MAX: nat := 1024

  // The buffers gathered for the next write; after a tag, and only after a tag, a full vector is written out.  The code
  // does not look where the vector ends.  A put that finds it full says so, and from there on nothing is modelled.
  class Writer<S> {
    const iov: array<seq<byte>>
    var i: nat
    var file: seq<byte>
    const md5: State<S>

    // What has been written or gathered.
    ghost var body: seq<byte>

    ghost predicate Valid()
      reads this, iov, md5, md5.buf
    {
      && iov.Length == IOV_MAX && i <= IOV_MAX
      && md5.Valid() && md5.Message() == body == file + Joined(iov[..i])
    }

    constructor (h: Hash<S>)
      ensures Valid() && body == [] && i == 0 && md5.h == h
      ensures fresh(iov) && fresh(md5) && fresh(md5.buf)
    {
      iov := new seq<byte>[IOV_MAX](_ => []);
      i, file, body := 0, [], [];
      md5 := new State(h);
    }

    method Put(piece: seq<byte>) returns (inside: bool)
      requires Valid()
      modifies this, iov, md5, md5.buf
      ensures inside == (old(i) < IOV_MAX)
      ensures inside ==> Valid() && body == old(body) + piece && i == Bumped(old(i), false)
    {
      if i == IOV_MAX {
        return false;
      }
      var rc := md5.Process(piece);
      Gather(piece);
      body := body + piece;
      return true;
    }

    // One more buffer in the vector.
    method Gather(piece: seq<byte>)
      requires iov.Length == IOV_MAX && i < IOV_MAX
      modifies `i, iov
      ensures i == old(i) + 1 && Joined(iov[..i]) == old(Joined(iov[..i])) + piece
    {
      ghost var before := iov[..i];
      iov[i] := piece;
      JoinedLast(iov[..i + 1], before, piece);
      i := i + 1;
    }

    method PutTag(piece: seq<byte>) returns (inside: bool)
      requires Valid()
      modifies this, iov, md5, md5.buf
      ensures inside == (old(i) < IOV_MAX)
      ensures inside ==> Valid() && body == old(body) + piece && i == Bumped(old(i), true)
    {
      inside := Put(piece);
      if inside && i == IOV_MAX - 2 {
        file := file + Joined(iov[..i]);
        i := 0;
        assert Joined(iov[..0]) == [];
      }
    }

    // The digest, and the last write.
    method Finish() returns (inside: bool)
      requires Valid()
      modifies this, iov, md5, md5.buf
      ensures inside == (old(i) < IOV_MAX)
      ensures inside ==> file == old(body) + Digest(md5.h, old(body))
    {
      if i == IOV_MAX {
        return false;
      }
      var rc, digest := md5.Done();
      Close(digest);
      return true;
    }

    method Close(digest: seq<byte>)
      requires iov.Length == IOV_MAX && i < IOV_MAX
      modifies `i, `file, iov
      ensures file == old(file + Joined(iov[..i])) + digest
    {
      ghost var gathered := Joined(iov[..i]);
      Gather(digest);
      assert file + (gathered + digest) == file + gathered + digest;
      file := file + Joined(iov[..i]);
    }
  }

  lemma JoinedLast(pieces: seq<seq<byte>>, before: seq<seq<byte>>, last: seq<byte>)
    requires pieces == before + [last]
    ensures Joined(pieces) == Joined(before) + last
  {
    assert pieces[..|pieces| - 1] == before;
  }

  // Where the next buffer goes after one more.
  function Bumped(i: nat, tag: bool): nat {
    if tag && i + 1 == IOV_MAX - 2 then 0 else i + 1
  }

  function TagSlots(tags: nat): seq<bool> {
    if tags == 0 then [] else [true] + TagSlots(tags - 1)
  }

  // Which buffers of a commit are tags, in order.
  function Slots(mods: seq<Module>): seq<bool> {
    if mods == [] then [] else [false] + TagSlots(|mods[0].tags|) + [false] + Slots(mods[1..])
  }

  // No buffer, nor the digest after the last, is put beyond the end of the vector.
  predicate Fits(i: nat, slots: seq<bool>)
    decreases |slots|
  {
    i < IOV_MAX && (slots != [] ==> Fits(Bumped(i, slots[0]), slots[1..]))
  }

  lemma FitsSlot(i: nat, slot: bool, rest: seq<bool>)
    ensures Fits(i, [slot] + rest) <==> i < IOV_MAX && Fits(Bumped(i, slot), rest)
  {
    assert ([slot] + rest)[1..] == rest;
  }

  // What is still to come completes the whole, and fits if all does.
  ghost predicate TagsLeft(body: seq<byte>, i: nat, tags: seq<Tag>, t: nat, whole: seq<byte>, rest: seq<bool>,
                           fits: bool)
    requires t <= |tags|
  {
    body + TagsBytes(tags[t..]) == whole && (Fits(i, TagSlots(|tags| - t) + rest) <==> fits)
  }

  lemma TagsLeftNext(body: seq<byte>, i: nat, tags: seq<Tag>, t: nat, whole: seq<byte>, rest: seq<bool>, fits: bool)
    requires t < |tags| && TagsLeft(body, i, tags, t, whole, rest, fits)
    ensures if i < IOV_MAX then TagsLeft(body + TagBytes(tags[t]), Bumped(i, true), tags, t + 1, whole, rest, fits)
            else !fits
  {
    var more := TagSlots(|tags| - t - 1) + rest;
    assert TagSlots(|tags| - t) + rest == [true] + more;
    FitsSlot(i, true, more);
    assert tags[t..][1..] == tags[t + 1..];
    assert body + (TagBytes(tags[t]) + TagsBytes(tags[t + 1..]))
        == (body + TagBytes(tags[t])) + TagsBytes(tags[t + 1..]);
  }

  lemma TagsLeftEnds(body: seq<byte>, i: nat, tags: seq<Tag>, whole: seq<byte>, rest: seq<bool>, fits: bool)
    ensures TagsLeft(body, i, tags, |tags|, whole, rest, fits) <==> body == whole && (Fits(i, rest) <==> fits)
    ensures TagsLeft(body, i, tags, 0, body + TagsBytes(tags), rest, Fits(i, TagSlots(|tags|) + rest))
  {
    assert body + [] == body;
    assert TagSlots(0) + rest == rest;
    assert tags[0..] == tags;
  }

  method PutTags<S>(w: Writer<S>, tags: seq<Tag>, ghost rest: seq<bool>) returns (inside: bool)
    requires w.Valid()
    modifies w, w.iov, w.md5, w.md5.buf
    ensures inside ==> w.Valid() && w.body == old(w.body) + TagsBytes(tags)
    ensures inside ==> (Fits(w.i, rest) <==> Fits(old(w.i), TagSlots(|tags|) + rest))
    ensures !inside ==> !Fits(old(w.i), TagSlots(|tags|) + rest)
  {
    ghost var whole, fits := w.body + TagsBytes(tags), Fits(w.i, TagSlots(|tags|) + rest);
    TagsLeftEnds(w.body, w.i, tags, whole, rest, fits);
    var t := 0;
    while t < |tags|
      invariant 0 <= t <= |tags| && w.Valid() && TagsLeft(w.body, w.i, tags, t, whole, rest, fits)
    {
      TagsLeftNext(w.body, w.i, tags, t, whole, rest, fits);
      inside := w.PutTag(TagBytes(tags[t]));
      if !inside {
        return false;
      }
      t := t + 1;
    }
    TagsLeftEnds(w.body, w.i, tags, whole, rest, fits);
    return true;
  }

  lemma ModuleFits(i: nat, n: nat, rest: seq<bool>)
    ensures Fits(i, [false] + TagSlots(n) + [false] + rest)
       <==> i < IOV_MAX && Fits(Bumped(i, false), TagSlots(n) + ([false] + rest))
  {
    assert [false] + TagSlots(n) + [false] + rest == [false] + (TagSlots(n) + ([false] + rest));
    FitsSlot(i, false, TagSlots(n) + ([false] + rest));
  }

  method PutModule<S>(w: Writer<S>, m: Module, ghost rest: seq<bool>) returns (inside: bool)
    requires w.Valid()
    modifies w, w.iov, w.md5, w.md5.buf
    ensures inside ==> w.Valid() && w.body == old(w.body) + ModuleBytes(m)
    ensures inside ==> (Fits(w.i, rest) <==> Fits(old(w.i), [false] + TagSlots(|m.tags|) + [false] + rest))
    ensures !inside ==> !Fits(old(w.i), [false] + TagSlots(|m.tags|) + [false] + rest)
  {
    ghost var before := w.body;
    ModuleFits(w.i, |m.tags|, rest);
    inside := w.Put([m.id % 256]);
    if !inside {
      return;
    }
    inside := PutTags(w, m.tags, [false] + rest);
    if !inside {
      return;
    }
    FitsSlot(w.i, false, rest);
    inside := w.Put(END);
    ModuleJoined(before, m);
  }

  lemma ModuleJoined(before: seq<byte>, m: Module)
    ensures before + [m.id % 256] + TagsBytes(m.tags) + END == before + ModuleBytes(m)
  {
  }

  ghost predicate ModulesLeft(body: seq<byte>, i: nat, mods: seq<Module>, m: nat, fits: bool)
    requires m <= |mods|
  {
    body + ModulesBytes(mods[m..]) == Body(mods) && (Fits(i, Slots(mods[m..])) <==> fits)
  }

  lemma ModulesLeftSplit(body: seq<byte>, i: nat, mods: seq<Module>, m: nat, fits: bool)
    requires m < |mods| && ModulesLeft(body, i, mods, m, fits)
    ensures Fits(i, [false] + TagSlots(|mods[m].tags|) + [false] + Slots(mods[m + 1..])) <==> fits
    ensures (body + ModuleBytes(mods[m])) + ModulesBytes(mods[m + 1..]) == Body(mods)
  {
    assert mods[m..][1..] == mods[m + 1..];
    assert body + (ModuleBytes(mods[m]) + ModulesBytes(mods[m + 1..]))
        == (body + ModuleBytes(mods[m])) + ModulesBytes(mods[m + 1..]);
  }

  // ---------------------------------------------------------------- when the vector overflows

  // The index at which a full vector is written out, if a tag makes it so.
  const FLUSH: nat := IOV_MAX - 2

  // In numbers of tags: with the next buffer at `i`, only the last module may put one of its own buffers where the
  // flush waits for a tag, and if it is the identifier the module has to be empty.
  predicate FitsModules(i: nat, mods: seq<Module>)
    decreases |mods|
  {
    mods == []
    || if i + 1 == FLUSH then |mods| == 1 && mods[0].tags == []
       else
         var j := (i + 1 + |mods[0].tags|) % FLUSH;
         if j + 1 == FLUSH then |mods| == 1 else FitsModules(j + 1, mods[1..])
  }

  lemma {:induction false} PastTheFlush(i: nat, slots: seq<bool>)
    requires i >= FLUSH
    ensures Fits(i, slots) <==> i + |slots| < IOV_MAX
    decreases |slots|
  {
    if slots != [] {
      PastTheFlush(i + 1, slots[1..]);
    }
  }

  lemma {:induction false} TagSlotsSize(n: nat)
    ensures |TagSlots(n)| == n
  {
    if n > 0 { TagSlotsSize(n - 1); }
  }

  // Tags go round the vector.
  lemma {:induction false} TagsFit(i: nat, n: nat, rest: seq<bool>)
    requires i < FLUSH
    ensures Fits(i, TagSlots(n) + rest) <==> Fits((i + n) % FLUSH, rest)
    decreases n
  {
    if n == 0 {
      assert TagSlots(n) + rest == rest;
    } else {
      assert TagSlots(n) + rest == [true] + (TagSlots(n - 1) + rest);
      FitsSlot(i, true, TagSlots(n - 1) + rest);
      TagsFit(Bumped(i, true), n - 1, rest);
      RoundOnce(i, n);
    }
  }

  lemma RoundOnce(i: nat, n: nat)
    requires i < FLUSH && n > 0
    ensures (Bumped(i, true) + n - 1) % FLUSH == (i + n) % FLUSH
  {
  }

  lemma SlotsSize(mods: seq<Module>)
    requires mods != []
    ensures |Slots(mods)| == 2 + |mods[0].tags| + |Slots(mods[1..])| && (Slots(mods[1..]) == [] <==> |mods| == 1)
  {
    TagSlotsSize(|mods[0].tags|);
  }

  lemma Misses(i: nat, more: seq<bool>)
    requires i + 1 == FLUSH
    ensures Fits(i, [false] + more) <==> |more| <= 1
  {
    FitsSlot(i, false, more);
    PastTheFlush(i + 1, more);
  }

  lemma IdMisses(i: nat, mods: seq<Module>)
    requires mods != [] && i + 1 == FLUSH
    ensures Fits(i, Slots(mods)) <==> |mods| == 1 && mods[0].tags == []
  {
    var more := TagSlots(|mods[0].tags|) + [false] + Slots(mods[1..]);
    assert Slots(mods) == [false] + more;
    Misses(i, more);
    SlotsSize(mods);
  }

  lemma EndMisses(i: nat, mods: seq<Module>)
    requires i + 1 == FLUSH
    ensures Fits(i, [false] + Slots(mods)) <==> mods == []
  {
    Misses(i, Slots(mods));
    if mods != [] { SlotsSize(mods); }
  }

  lemma ModuleSlots(i: nat, mods: seq<Module>, j: nat)
    requires mods != [] && i + 1 < FLUSH && j == (i + 1 + |mods[0].tags|) % FLUSH
    ensures Fits(i, Slots(mods)) <==> Fits(j, [false] + Slots(mods[1..]))
  {
    var end := [false] + Slots(mods[1..]);
    assert Slots(mods) == [false] + (TagSlots(|mods[0].tags|) + end);
    FitsSlot(i, false, TagSlots(|mods[0].tags|) + end);
    TagsFit(i + 1, |mods[0].tags|, end);
  }

  // A commit stays inside the vector exactly when the numbers of tags let it.
  lemma {:induction false} FitsExactly(i: nat, mods: seq<Module>)
    requires i < FLUSH
    ensures Fits(i, Slots(mods)) <==> FitsModules(i, mods)
    decreases |mods|
  {
    if mods != [] {
      if i + 1 == FLUSH {
        IdMisses(i, mods);
      } else {
        var j := (i + 1 + |mods[0].tags|) % FLUSH;
        ModuleSlots(i, mods, j);
        if j + 1 == FLUSH {
          EndMisses(j, mods[1..]);
        } else {
          FitsSlot(j, false, Slots(mods[1..]));
          FitsExactly(j + 1, mods[1..]);
        }
      }
    }
  }

  // A first module of 1019 tags, or any multiple of 1022 more, and any module behind it put a buffer beyond the vector.
  lemma Overrun(mods: seq<Module>)
    requires |mods| >= 2 && |mods[0].tags| % FLUSH == FLUSH - 3
    ensures !Fits(0, [false] + Slots(mods))
  {
    FitsSlot(0, false, Slots(mods));
    OverrunAt(1, mods);
  }

  lemma OverrunAt(i: nat, mods: seq<Module>)
    requires i == 1 && |mods| >= 2 && |mods[0].tags| % FLUSH == FLUSH - 3
    ensures !Fits(i, Slots(mods))
  {
    FitsExactly(i, mods);
  }

  method PutModules<S>(w: Writer<S>, mods: seq<Module>, ghost fits: bool) returns (inside: bool)
    requires w.Valid() && ModulesLeft(w.body, w.i, mods, 0, fits)
    modifies w, w.iov, w.md5, w.md5.buf
    ensures inside ==> w.Valid() && ModulesLeft(w.body, w.i, mods, |mods|, fits)
    ensures !inside ==> !fits
  {
    var m := 0;
    while m < |mods|
      invariant 0 <= m <= |mods| && w.Valid() && ModulesLeft(w.body, w.i, mods, m, fits)
    {
      ModulesLeftSplit(w.body, w.i, mods, m, fits);
      inside := PutModule(w, mods[m], Slots(mods[m + 1..]));
      if !inside {
        return;
      }
      m := m + 1;
    }
    inside := true;
  }

  // Writes version, modules and digest; the digest is taken piece by piece.  Nothing comes of it if a buffer is put
  // beyond the vector.
  method Commit<S>(h: Hash<S>, mods: seq<Module>) returns (file: Option<seq<byte>>)
    ensures file == if FitsModules(1, mods) then Some(File(h, mods)) else None
  {
    var w := new Writer(h);
    var inside := w.Put([VERSION]);
    assert w.body == [VERSION];
    FitsExactly(1, mods);
    assert mods[0..] == mods;
    inside := PutModules(w, mods, FitsModules(1, mods));
    if !inside {
      return None;
    }
    assert w.body + [] == w.body;
    inside := w.Finish();
    return if inside then Some(w.file) else None;
  }

  // What was committed is restored.
  method CommitAndRestore(mods: seq<Module>, internal: bool) returns (r: Outcome)
    requires Sized(mods) && ReadableModules(mods, internal) && FitsModules(1, mods)
    ensures r == Restored(if internal then mods else ShownModules(mods, false))
  {
    var file := Commit(Md5.MD5, mods);
    Md5IsSixteen();
    FileParts(Md5.MD5, mods, file.value);
    HeldRead(mods, internal, file.value);
    ShownModulesAll(mods);
    r := Restore(Md5.MD5, file.value, internal);
  }
}
