/** Patching recompiled functions into a linked ELF image, in place. */
module ElfPatch {
  import opened LinearMemory
  import opened Powers
  import opened Wrappers

  /** Refused: the caller links afresh. Failed: a relocation is outside what can be encoded. */
  datatype Outcome<T> = Refused | Failed | Ready(value: T)

  type Name = string
  type Hash = string

  const U64 := 0x1_0000_0000_0000_0000

  // ---- little-endian fields ----

  function Encode(v: nat, n: nat): (r: seq<Byte>)
    ensures |r| == n
  {
    if n == 0 then [] else [v % 256] + Encode(v / 256, n - 1)
  }

  function Decode(bs: seq<Byte>): nat {
    if bs == [] then 0 else bs[0] as nat + 256 * Decode(bs[1..])
  }

  lemma {:induction false} DecodeEncode(v: nat, n: nat)
    requires v < Pow(256, n)
    ensures Decode(Encode(v, n)) == v
    decreases n
  {
    if n > 0 {
      assert Pow(256, n) == 256 * Pow(256, n - 1);
      DecodeEncode(v / 256, n - 1);
      assert Encode(v, n)[1..] == Encode(v / 256, n - 1);
    }
  }

  /** Each byte weighs 256 times the one before it. */
  lemma {:induction false} LittleEndian(bs: seq<Byte>, b: Byte)
    ensures Decode(bs + [b]) == Decode(bs) + b as nat * Pow(256, |bs|)
  {
    if bs == [] {
      assert bs + [b] == [b] && [b][1..] == [];
    } else {
      LittleEndian(bs[1..], b);
      assert (bs + [b])[1..] == bs[1..] + [b];
      NextWeight(b as nat, Pow(256, |bs| - 1));
    }
  }

  lemma NextWeight(b: nat, p: nat)
    ensures b * (256 * p) == 256 * (b * p)
  {
  }

  /** Two's complement in 32 bits. */
  function Wrap32(d: int): nat
    requires -0x8000_0000 <= d < 0x8000_0000
  {
    if d < 0 then d + 0x1_0000_0000 else d
  }

  function Signed32(u: nat): int {
    if u >= 0x8000_0000 then u - 0x1_0000_0000 else u
  }

  lemma TwosComplement(u: nat)
    requires u < 0x1_0000_0000
    ensures -0x8000_0000 <= Signed32(u) < 0x8000_0000 && (u - Signed32(u)) % 0x1_0000_0000 == 0
  {
  }

  lemma Field32(d: int)
    requires -0x8000_0000 <= d < 0x8000_0000
    ensures Signed32(Decode(Encode(Wrap32(d), 4))) == d
  {
    assert Pow(256, 4) == 0x1_0000_0000 by {
      assert Pow(256, 1) == 256 && Pow(256, 2) == 0x1_0000;
      PowAdd(256, 2, 2);
    }
    DecodeEncode(Wrap32(d), 4);
  }

  lemma Field64(v: nat)
    requires v < U64
    ensures Decode(Encode(v, 8)) == v
  {
    assert Pow(256, 8) == U64 by {
      assert Pow(256, 1) == 256 && Pow(256, 2) == 0x1_0000;
      PowAdd(256, 2, 2);
      PowAdd(256, 4, 4);
    }
    DecodeEncode(v, 8);
  }

  // ---- writing fields ----

  datatype Field = Field(offset: nat, bytes: seq<Byte>)

  predicate Fits(f: Field, n: nat) {
    f.offset + |f.bytes| <= n
  }

  function Splice(code: seq<Byte>, f: Field): (r: seq<Byte>)
    requires Fits(f, |code|)
    ensures |r| == |code|
    ensures r[f.offset..f.offset + |f.bytes|] == f.bytes
    ensures forall k :: 0 <= k < |code| && !(f.offset <= k < f.offset + |f.bytes|) ==> r[k] == code[k]
  {
    code[..f.offset] + f.bytes + code[f.offset + |f.bytes|..]
  }

  ghost predicate Apart(f: Field, g: Field) {
    f.offset + |f.bytes| <= g.offset || g.offset + |g.bytes| <= f.offset
  }

  ghost predicate Outside(fs: seq<Field>, k: nat) {
    forall j :: 0 <= j < |fs| ==> !(fs[j].offset <= k < fs[j].offset + |fs[j].bytes|)
  }

  /** No later field overlaps field j. */
  ghost predicate Latest(fs: seq<Field>, j: nat)
    requires j < |fs|
  {
    forall i :: j < i < |fs| ==> Apart(fs[j], fs[i])
  }

  ghost predicate ReadsBack(code: seq<Byte>, f: Field) {
    Fits(f, |code|) && code[f.offset..f.offset + |f.bytes|] == f.bytes
  }

  /** The code after the fields were written in order: each field that no later one overlaps reads
      back, and every other byte is untouched. */
  ghost predicate Written(raw: seq<Byte>, fs: seq<Field>, code: seq<Byte>) {
    && |code| == |raw|
    && (forall j :: 0 <= j < |fs| ==> Fits(fs[j], |raw|))
    && (forall k :: 0 <= k < |raw| && Outside(fs, k) ==> code[k] == raw[k])
    && forall j :: 0 <= j < |fs| && Latest(fs, j) ==> ReadsBack(code, fs[j])
  }

  lemma WriteMore(raw: seq<Byte>, fs: seq<Field>, code: seq<Byte>, f: Field)
    requires Written(raw, fs, code) && Fits(f, |raw|)
    ensures Written(raw, fs + [f], Splice(code, f))
  {
    hide Splice, Outside, Latest, ReadsBack;
    var more, r := fs + [f], Splice(code, f);
    forall k | 0 <= k < |raw| && Outside(more, k)
      ensures r[k] == raw[k]
    {
      OutsideMore(fs, f, k);
    }
    forall j | 0 <= j < |more| && Latest(more, j)
      ensures ReadsBack(r, more[j])
    {
      if j < |fs| {
        LatestMore(fs, f, j);
        KeepsField(code, f, fs[j]);
      } else {
        ReadsOwn(code, f);
      }
    }
  }

  lemma LatestMore(fs: seq<Field>, f: Field, j: nat)
    requires j < |fs| && Latest(fs + [f], j)
    ensures Latest(fs, j) && Apart(fs[j], f)
  {
    hide Apart;
    var more := fs + [f];
    assert Apart(more[j], more[|fs|]);
    assert forall i :: j < i < |fs| ==> more[i] == fs[i];
  }

  lemma ReadsOwn(code: seq<Byte>, f: Field)
    requires Fits(f, |code|)
    ensures ReadsBack(Splice(code, f), f)
  {
  }

  lemma OutsideMore(fs: seq<Field>, f: Field, k: nat)
    requires Outside(fs + [f], k)
    ensures Outside(fs, k) && !(f.offset <= k < f.offset + |f.bytes|)
  {
    assert (fs + [f])[|fs|] == f;
    assert forall j :: 0 <= j < |fs| ==> (fs + [f])[j] == fs[j];
  }

  lemma KeepsField(code: seq<Byte>, f: Field, g: Field)
    requires Fits(f, |code|) && ReadsBack(code, g) && Apart(g, f)
    ensures ReadsBack(Splice(code, f), g)
  {
    assert Splice(code, f)[g.offset..g.offset + |g.bytes|] == code[g.offset..g.offset + |g.bytes|];
  }

  // ---- relocations ----

  datatype Kind = Relative | PltRelative | GotRelative | Absolute | OtherKind

  /** A symbol defined in the object, with whether it is code of the same section; one defined
      elsewhere; or a section or absolute address. */
  datatype Target = Local(address: nat, sameText: bool) | Global(name: Name) | Placeless

  datatype Reloc = Reloc(address: nat, kind: Kind, bits: nat, addend: int, target: Target)

  /** The recompiled function: where its section holds it, and the section's relocations. */
  datatype Func = Func(address: nat, size: nat, section: seq<Byte>, relocs: seq<Reloc>)

  datatype Slot = Slot(symbol: Name, vaddr: nat, fileOffset: nat, codeSize: nat, capacity: nat, hash: Hash)

  datatype Layout = Layout(textVaddr: nat, textOffset: nat, textSize: nat,
                           units: map<Name, Hash>, slots: map<Name, Slot>, globals: map<Name, nat>)

  datatype Unit = Unit(name: Name, hash: Hash)

  /** Where the relocation points, once the function sits at `vaddr`. */
  function TargetAddress(globals: map<Name, nat>, vaddr: nat, f: Func, r: Reloc): Option<nat> {
    match r.target
    case Local(address, sameText) =>
      if !sameText || address < f.address || vaddr + (address - f.address) >= U64 then None
      else Some(vaddr + (address - f.address))
    case Global(name) =>
      var key := if r.kind == GotRelative then name + "$got" else name;
      if key in globals then Some(globals[key]) else None
    case Placeless => None
  }

  predicate IsRelative(r: Reloc) {
    (r.kind == Relative || r.kind == PltRelative || r.kind == GotRelative) && r.bits == 32
  }

  predicate IsAbsolute(r: Reloc) {
    r.kind == Absolute && r.bits == 64
  }

  /** The field a relocation at `offset` of a function at `vaddr` asks for. */
  function FieldOf(r: Reloc, offset: nat, vaddr: nat, target: nat): Outcome<Field> {
    if vaddr + offset >= U64 then Failed
    else if IsRelative(r) then
      var d := target + r.addend - (vaddr + offset);
      if -0x8000_0000 <= d < 0x8000_0000 then Ready(Field(offset, Encode(Wrap32(d), 4))) else Failed
    else if IsAbsolute(r) then
      var v := target + r.addend;
      if 0 <= v < U64 then Ready(Field(offset, Encode(v, 8))) else Failed
    else Failed
  }

  predicate Inside(f: Func, r: Reloc) {
    f.address <= r.address < f.address + f.size
  }

  /** A 32-bit field holds target plus addend minus place; a 64-bit one target plus addend. */
  ghost predicate Resolves(r: Reloc, vaddr: nat, f: Func, target: nat, field: Field) {
    && Inside(f, r) && field.offset == r.address - f.address
    && (IsRelative(r) ==> |field.bytes| == 4
                          && Signed32(Decode(field.bytes)) == target + r.addend - (vaddr + field.offset))
    && (IsAbsolute(r) ==> |field.bytes| == 8 && Decode(field.bytes) == target + r.addend)
    && (IsRelative(r) || IsAbsolute(r))
  }

  lemma FieldResolves(r: Reloc, vaddr: nat, f: Func, target: nat)
    requires Inside(f, r) && FieldOf(r, r.address - f.address, vaddr, target).Ready?
    ensures Resolves(r, vaddr, f, target, FieldOf(r, r.address - f.address, vaddr, target).value)
  {
    hide Encode, Decode, Signed32, Wrap32;
    var offset := r.address - f.address;
    if IsRelative(r) {
      Field32(target + r.addend - (vaddr + offset));
    } else {
      Field64(target + r.addend);
    }
  }

  /** A symbol of the section keeps its distance from the function: a 32-bit field holds what linking
      the section in one piece would put there. So it is found in the slot exactly when it lies inside
      the function, and past the slot when it lies past the function's end. */
  lemma LocalTarget(globals: map<Name, nat>, vaddr: nat, f: Func, r: Reloc)
    requires r.target.Local? && TargetAddress(globals, vaddr, f, r).Some? && Inside(f, r) && IsRelative(r)
    requires FieldOf(r, r.address - f.address, vaddr, TargetAddress(globals, vaddr, f, r).value).Ready?
    ensures var t := TargetAddress(globals, vaddr, f, r).value;
            var field := FieldOf(r, r.address - f.address, vaddr, t).value;
            && Signed32(Decode(field.bytes)) == r.target.address + r.addend - r.address
            && (vaddr <= t < vaddr + f.size <==> f.address <= r.target.address < f.address + f.size)
  {
    hide Encode, Decode, Signed32, Wrap32;
    FieldResolves(r, vaddr, f, TargetAddress(globals, vaddr, f, r).value);
  }

  /** The relocations that fall inside the function, in order. */
  function Relevant(f: Func, rs: seq<Reloc>): seq<Reloc> {
    if rs == [] then []
    else Relevant(f, rs[..|rs| - 1]) + if Inside(f, rs[|rs| - 1]) then [rs[|rs| - 1]] else []
  }

  /** Each of them as often as the section lists it, and no other. */
  lemma {:induction false} RelevantExactly(f: Func, rs: seq<Reloc>, r: Reloc)
    ensures multiset(Relevant(f, rs))[r] == if f.address <= r.address < f.address + f.size then multiset(rs)[r] else 0
  {
    if rs != [] {
      RelevantExactly(f, rs[..|rs| - 1], r);
      assert rs == rs[..|rs| - 1] + [rs[|rs| - 1]];
    }
  }

  /** A 32-bit distance within i32, or a 64-bit address within u64, in a field that fits the code. */
  predicate Encodable(r: Reloc, offset: nat, vaddr: nat, target: nat, size: nat) {
    && vaddr + offset < U64
    && ((IsRelative(r) && -0x8000_0000 <= target + r.addend - (vaddr + offset) < 0x8000_0000 && offset + 4 <= size)
        || (IsAbsolute(r) && 0 <= target + r.addend < U64 && offset + 8 <= size))
  }

  /** The relocation has a target and can be written. */
  ghost predicate Resolvable(globals: map<Name, nat>, vaddr: nat, f: Func, r: Reloc) {
    var t := TargetAddress(globals, vaddr, f, r);
    Inside(f, r) && t.Some? && Encodable(r, r.address - f.address, vaddr, t.value, f.size)
  }

  ghost predicate AllResolvable(globals: map<Name, nat>, vaddr: nat, f: Func, rs: seq<Reloc>) {
    forall k :: 0 <= k < |rs| ==> Resolvable(globals, vaddr, f, rs[k])
  }

  /** The first relocation that is not resolvable; `found` says whether it has a target. */
  ghost predicate StopsAt(globals: map<Name, nat>, vaddr: nat, f: Func, rs: seq<Reloc>, k: nat, found: bool) {
    && k < |rs| && AllResolvable(globals, vaddr, f, rs[..k]) && !Resolvable(globals, vaddr, f, rs[k])
    && TargetAddress(globals, vaddr, f, rs[k]).Some? == found
  }

  ghost predicate Stops(globals: map<Name, nat>, vaddr: nat, f: Func, rs: seq<Reloc>, found: bool) {
    exists k :: StopsAt(globals, vaddr, f, rs, k, found)
  }

  lemma FieldExactly(r: Reloc, offset: nat, vaddr: nat, target: nat, size: nat)
    ensures var field := FieldOf(r, offset, vaddr, target);
            !field.Refused? && (field.Ready? && Fits(field.value, size) <==> Encodable(r, offset, vaddr, target, size))
  {
    hide Encode, Wrap32;
  }

  /** A list stops at most once, and then not all of it is resolvable. */
  lemma StopsOnce(globals: map<Name, nat>, vaddr: nat, f: Func, rs: seq<Reloc>, k: nat, found: bool, other: bool)
    requires StopsAt(globals, vaddr, f, rs, k, found)
    ensures !AllResolvable(globals, vaddr, f, rs)
    ensures Stops(globals, vaddr, f, rs, other) <==> other == found
  {
    hide Resolvable, TargetAddress;
    if j: nat :| StopsAt(globals, vaddr, f, rs, j, other) {
      if j < k { assert rs[..k][j] == rs[j]; }
      if k < j { assert rs[..j][k] == rs[k]; }
    }
  }

  lemma AllNeverStops(globals: map<Name, nat>, vaddr: nat, f: Func, rs: seq<Reloc>, found: bool)
    requires AllResolvable(globals, vaddr, f, rs)
    ensures !Stops(globals, vaddr, f, rs, found)
  {
    hide Resolvable, TargetAddress;
  }

  lemma {:induction false} RelevantFront(f: Func, rs: seq<Reloc>, k: nat)
    requires k <= |rs|
    ensures Relevant(f, rs[..k]) <= Relevant(f, rs)
  {
    if k < |rs| {
      assert rs[..|rs| - 1][..k] == rs[..k];
      RelevantFront(f, rs[..|rs| - 1], k);
    } else {
      assert rs[..k] == rs;
    }
  }

  /** A relocation that cannot be resolved, with all relevant ones before it resolvable. */
  lemma StopsHere(globals: map<Name, nat>, vaddr: nat, f: Func, rs: seq<Reloc>, k: nat)
    requires k < |rs| && Inside(f, rs[k]) && AllResolvable(globals, vaddr, f, Relevant(f, rs[..k]))
    requires !Resolvable(globals, vaddr, f, rs[k])
    ensures var all := Relevant(f, rs); var found := TargetAddress(globals, vaddr, f, rs[k]).Some?;
            && !AllResolvable(globals, vaddr, f, all)
            && (forall other :: Stops(globals, vaddr, f, all, other) <==> other == found)
  {
    hide Resolvable, TargetAddress;
    var all, before := Relevant(f, rs), Relevant(f, rs[..k]);
    RelevantFront(f, rs, k + 1);
    assert rs[..k + 1][..k] == rs[..k];
    assert before + [rs[k]] <= all;
    var found := TargetAddress(globals, vaddr, f, rs[k]).Some?;
    assert all[..|before|] == before && all[|before|] == rs[k];
    assert StopsAt(globals, vaddr, f, all, |before|, found);
    forall other ensures Stops(globals, vaddr, f, all, other) <==> other == found {
      StopsOnce(globals, vaddr, f, all, |before|, found, other);
    }
  }

  /** The fields are those the relocations ask for, one each, and the code holds them. */
  ghost predicate Relocated(globals: map<Name, nat>, vaddr: nat, f: Func, rs: seq<Reloc>, raw: seq<Byte>,
                            fields: seq<Field>, code: seq<Byte>) {
    && |fields| == |rs| && Written(raw, fields, code)
    && forall k :: 0 <= k < |rs| ==>
         var t := TargetAddress(globals, vaddr, f, rs[k]);
         t.Some? && Resolves(rs[k], vaddr, f, t.value, fields[k])
  }

  /** A symbol defined elsewhere has a target exactly when the layout records the address its kind of
      relocation asks for: that of the symbol's entry in the offset table, or its own. */
  lemma GlobalFound(globals: map<Name, nat>, vaddr: nat, f: Func, r: Reloc, n: Name)
    requires r.target == Global(n)
    ensures r.kind == GotRelative ==> (TargetAddress(globals, vaddr, f, r).Some? <==> n + "$got" in globals)
    ensures r.kind != GotRelative ==> (TargetAddress(globals, vaddr, f, r).Some? <==> n in globals)
  {
  }

  /** What the field of such a relocation holds. */
  lemma GlobalField(globals: map<Name, nat>, vaddr: nat, f: Func, rs: seq<Reloc>, raw: seq<Byte>,
                    fields: seq<Field>, code: seq<Byte>, k: nat, n: Name)
    requires Relocated(globals, vaddr, f, rs, raw, fields, code) && k < |rs| && rs[k].target == Global(n)
    ensures fields[k].offset == rs[k].address - f.address
    ensures |fields[k].bytes| == (if rs[k].kind == Absolute then 8 else 4) && 8 * |fields[k].bytes| == rs[k].bits
    ensures var r, bytes, place := rs[k], fields[k].bytes, vaddr + (rs[k].address - f.address);
            match r.kind
            case GotRelative =>
              n + "$got" in globals && Signed32(Decode(bytes)) == globals[n + "$got"] + r.addend - place
            case Relative => n in globals && Signed32(Decode(bytes)) == globals[n] + r.addend - place
            case PltRelative => n in globals && Signed32(Decode(bytes)) == globals[n] + r.addend - place
            case Absolute => n in globals && Decode(bytes) == globals[n] + r.addend
            case OtherKind => false
  {
    hide Written, Decode, Signed32;
    var t := TargetAddress(globals, vaddr, f, rs[k]);
    assert t.Some? && Resolves(rs[k], vaddr, f, t.value, fields[k]);
    GlobalFound(globals, vaddr, f, rs[k], n);
  }

  ghost predicate IsRelocated(globals: map<Name, nat>, vaddr: nat, f: Func, raw: seq<Byte>, code: seq<Byte>) {
    exists fields: seq<Field> :: RelocatedBy(globals, vaddr, f, raw, fields, code)
  }

  ghost predicate RelocatedBy(globals: map<Name, nat>, vaddr: nat, f: Func, raw: seq<Byte>, fields: seq<Field>,
                              code: seq<Byte>) {
    Relocated(globals, vaddr, f, Relevant(f, f.relocs), raw, fields, code)
  }

  /** Ready exactly when every relevant relocation is resolvable; failed exactly when the first that is not
      has a target, refused when it has none. */
  method Relocate(globals: map<Name, nat>, vaddr: nat, f: Func, raw: seq<Byte>) returns (r: Outcome<seq<Byte>>)
    requires |raw| == f.size
    ensures r.Ready? <==> AllResolvable(globals, vaddr, f, Relevant(f, f.relocs))
    ensures r.Failed? <==> Stops(globals, vaddr, f, Relevant(f, f.relocs), true)
    ensures r.Refused? <==> Stops(globals, vaddr, f, Relevant(f, f.relocs), false)
    ensures r.Ready? ==> |r.value| == |raw| && IsRelocated(globals, vaddr, f, raw, r.value)
  {
    hide Written, Resolves, Encode, Encodable, Stops, FieldOf, Fits, Splice, IsRelative, IsAbsolute;
    var code := raw;
    ghost var fields: seq<Field> := [];
    assert Written(raw, fields, code) by { WrittenNone(raw); }
    for k := 0 to |f.relocs|
      invariant |code| == |raw| && AllResolvable(globals, vaddr, f, Relevant(f, f.relocs[..k]))
      invariant Relocated(globals, vaddr, f, Relevant(f, f.relocs[..k]), raw, fields, code)
    {
      var reloc := f.relocs[k];
      assert f.relocs[..k + 1][..k] == f.relocs[..k];
      if Inside(f, reloc) {
        var offset := reloc.address - f.address;
        var target := TargetAddress(globals, vaddr, f, reloc);
        if target.None? {
          StopsHere(globals, vaddr, f, f.relocs, k);
          return Refused;
        }
        var field := FieldOf(reloc, offset, vaddr, target.value);
        FieldExactly(reloc, offset, vaddr, target.value, |code|);
        if !field.Ready? {
          StopsHere(globals, vaddr, f, f.relocs, k);
          return Failed;
        }
        if !Fits(field.value, |code|) {
          StopsHere(globals, vaddr, f, f.relocs, k);
          return Failed;
        }
        FieldResolves(reloc, vaddr, f, target.value);
        WriteMore(raw, fields, code, field.value);
        code := Splice(code, field.value);
        fields := fields + [field.value];
      }
    }
    assert f.relocs[..|f.relocs|] == f.relocs;
    assert RelocatedBy(globals, vaddr, f, raw, fields, code);
    AllNeverStops(globals, vaddr, f, Relevant(f, f.relocs), true);
    AllNeverStops(globals, vaddr, f, Relevant(f, f.relocs), false);
    return Ready(code);
  }

  /** A function of eight bytes with a 64-bit relative relocation. */
  function WideRelative(): Func {
    Func(0, 8, [0, 0, 0, 0, 0, 0, 0, 0], [Reloc(0, Relative, 64, 0, Global("x"))])
  }

  /** A relocation of another kind or width that has a target is not left to a full link: it fails. */
  lemma UnsupportedFails(globals: map<Name, nat>, vaddr: nat, f: Func, r: Reloc)
    requires f.relocs == [r] && f.address <= r.address < f.address + f.size
    requires (r.kind == Absolute ==> r.bits != 64) && (r.kind.OtherKind? || r.kind == Absolute || r.bits != 32)
    requires TargetAddress(globals, vaddr, f, r).Some?
    ensures Stops(globals, vaddr, f, Relevant(f, f.relocs), true)
  {
    hide TargetAddress;
    assert f.relocs[..0] == [];
    assert Relevant(f, f.relocs[..0]) == [];
    assert [] + [r] == [r];
    assert StopsAt(globals, vaddr, f, [r], 0, true);
  }

  lemma WideRelativeFails(vaddr: nat)
    ensures Stops(map["x" := 0], vaddr, WideRelative(), Relevant(WideRelative(), WideRelative().relocs), true)
  {
    hide Stops, Relevant;
    UnsupportedFails(map["x" := 0], vaddr, WideRelative(), WideRelative().relocs[0]);
  }

  lemma WrittenNone(raw: seq<Byte>)
    ensures Written(raw, [], raw)
  {
  }

  // ---- patches ----

  datatype Patch = Patch(offset: nat, name: Name, hash: Hash, bytes: seq<Byte>)

  /** The patch replaces exactly the function's recorded slot, which lies in the text of the image. */
  ghost predicate InSlot(layout: Layout, imageSize: nat, u: Unit, p: Patch) {
    && u.name in layout.slots && p.name == u.name && p.hash == u.hash
    && p.offset == layout.slots[u.name].fileOffset && |p.bytes| == layout.slots[u.name].codeSize
    && layout.textOffset <= p.offset && p.offset + |p.bytes| <= layout.textOffset + layout.textSize <= imageSize
  }

  /** The patch holds the function's code, relocated for the address its slot has in memory. */
  ghost predicate HoldsCode(layout: Layout, u: Unit, f: Func, p: Patch) {
    && u.name in layout.slots && f.address + f.size <= |f.section|
    && layout.slots[u.name].vaddr - layout.textVaddr == p.offset - layout.textOffset
    && IsRelocated(layout.globals, layout.slots[u.name].vaddr, f, f.section[f.address..f.address + f.size], p.bytes)
  }

  /** The unit has a whole slot and a function of that size. */
  ghost predicate HasSlot(layout: Layout, u: Unit, found: Option<Func>) {
    && u.name in layout.slots && found.Some?
    && layout.slots[u.name].symbol == u.name && layout.slots[u.name].capacity == layout.slots[u.name].codeSize
    && found.value.size == layout.slots[u.name].codeSize
    && found.value.address + found.value.size < U64 && found.value.address + found.value.size <= |found.value.section|
  }

  /** The slot lies in the text, at the file offset its address asks for. */
  ghost predicate InText(layout: Layout, slot: Slot) {
    && layout.textVaddr <= slot.vaddr && slot.fileOffset == layout.textOffset + (slot.vaddr - layout.textVaddr)
    && slot.fileOffset + slot.codeSize < U64
    && slot.fileOffset + slot.codeSize <= layout.textOffset + layout.textSize
  }

  /** A patch can be prepared. */
  ghost predicate Patchable(layout: Layout, u: Unit, found: Option<Func>) {
    && HasSlot(layout, u, found) && InText(layout, layout.slots[u.name])
    && AllResolvable(layout.globals, layout.slots[u.name].vaddr, found.value, Relevant(found.value, found.value.relocs))
  }

  /** Preparing one fails: a relocation with a target cannot be written. */
  ghost predicate Unpatchable(layout: Layout, u: Unit, found: Option<Func>) {
    && HasSlot(layout, u, found)
    && Stops(layout.globals, layout.slots[u.name].vaddr, found.value, Relevant(found.value, found.value.relocs), true)
  }

  method Prepare(layout: Layout, imageSize: nat, u: Unit, found: Option<Func>) returns (r: Outcome<Patch>)
    requires layout.textOffset + layout.textSize <= imageSize < U64
    ensures r.Ready? <==> Patchable(layout, u, found)
    ensures r.Failed? <==> Unpatchable(layout, u, found)
    ensures r.Ready? ==>
              found.Some? && InSlot(layout, imageSize, u, r.value) && HoldsCode(layout, u, found.value, r.value)
  {
    hide AllResolvable, Stops, IsRelocated;
    if u.name !in layout.slots {
      return Refused;
    }
    var slot := layout.slots[u.name];
    if slot.symbol != u.name || slot.capacity != slot.codeSize || found.None? {
      return Refused;
    }
    var f := found.value;
    if f.size != slot.codeSize || f.address + f.size >= U64 || f.address + f.size > |f.section| {
      return Refused;
    }
    var code := Relocate(layout.globals, slot.vaddr, f, f.section[f.address..f.address + f.size]);
    match code {
      case Refused => return Refused;
      case Failed => return Failed;
      case Ready(bytes) =>
        if slot.vaddr < layout.textVaddr || layout.textOffset + (slot.vaddr - layout.textVaddr) >= U64 {
          return Refused;
        }
        if layout.textOffset + (slot.vaddr - layout.textVaddr) != slot.fileOffset {
          return Refused;
        }
        var end := slot.fileOffset + slot.codeSize;
        if end >= U64 {
          return Refused;
        }
        if slot.fileOffset < layout.textOffset || end > layout.textOffset + layout.textSize {
          return Refused;
        }
        return Ready(Patch(slot.fileOffset, u.name, u.hash, bytes));
    }
  }

  datatype Rebuilt = Rebuilt(unit: Unit, found: Option<Func>)

  ghost predicate AllPatchable(layout: Layout, rebuilt: seq<Rebuilt>) {
    forall k :: 0 <= k < |rebuilt| ==> Patchable(layout, rebuilt[k].unit, rebuilt[k].found)
  }

  /** Every function before some unpatchable one can be patched. */
  ghost predicate SomeFails(layout: Layout, rebuilt: seq<Rebuilt>) {
    exists k :: 0 <= k < |rebuilt| && FailsAt(layout, rebuilt, k)
  }

  ghost predicate FailsAt(layout: Layout, rebuilt: seq<Rebuilt>, k: nat)
    requires k < |rebuilt|
  {
    AllPatchable(layout, rebuilt[..k]) && Unpatchable(layout, rebuilt[k].unit, rebuilt[k].found)
  }

  /** The patches answer the rebuilt functions one by one. */
  ghost predicate Answers(layout: Layout, imageSize: nat, rebuilt: seq<Rebuilt>, patches: seq<Patch>) {
    && |patches| == |rebuilt|
    && forall k :: 0 <= k < |rebuilt| ==>
         && rebuilt[k].found.Some? && InSlot(layout, imageSize, rebuilt[k].unit, patches[k])
         && HoldsCode(layout, rebuilt[k].unit, rebuilt[k].found.value, patches[k])
  }

  /** No function is both. */
  lemma NotBoth(layout: Layout, u: Unit, found: Option<Func>)
    requires Patchable(layout, u, found)
    ensures !Unpatchable(layout, u, found)
  {
    hide AllResolvable, Stops;
    var f := found.value;
    AllNeverStops(layout.globals, layout.slots[u.name].vaddr, f, Relevant(f, f.relocs), true);
  }

  lemma FirstDecides(layout: Layout, rebuilt: seq<Rebuilt>, k: nat)
    requires k < |rebuilt| && AllPatchable(layout, rebuilt[..k])
    requires !Patchable(layout, rebuilt[k].unit, rebuilt[k].found)
    ensures !AllPatchable(layout, rebuilt)
    ensures SomeFails(layout, rebuilt) <==> Unpatchable(layout, rebuilt[k].unit, rebuilt[k].found)
  {
    hide Patchable, Unpatchable;
    if j :| 0 <= j < |rebuilt| && FailsAt(layout, rebuilt, j) {
      if j < k {
        assert rebuilt[..k][j] == rebuilt[j];
        NotBoth(layout, rebuilt[j].unit, rebuilt[j].found);
      }
    }
    if Unpatchable(layout, rebuilt[k].unit, rebuilt[k].found) { assert FailsAt(layout, rebuilt, k); }
  }

  lemma AllNeverFail(layout: Layout, rebuilt: seq<Rebuilt>)
    requires AllPatchable(layout, rebuilt)
    ensures !SomeFails(layout, rebuilt)
  {
    hide Patchable, Unpatchable;
    forall k | 0 <= k < |rebuilt| ensures !FailsAt(layout, rebuilt, k) {
      NotBoth(layout, rebuilt[k].unit, rebuilt[k].found);
    }
  }

  /** Ready exactly when every function can be patched into a text that lies in the image; failed exactly
      when the first that cannot fails. */
  method PrepareAll(layout: Layout, imageSize: nat, rebuilt: seq<Rebuilt>) returns (r: Outcome<seq<Patch>>)
    requires imageSize < U64
    ensures r.Ready? <==> layout.textOffset + layout.textSize <= imageSize && AllPatchable(layout, rebuilt)
    ensures r.Failed? <==> layout.textOffset + layout.textSize <= imageSize && SomeFails(layout, rebuilt)
    ensures r.Ready? ==> Answers(layout, imageSize, rebuilt, r.value)
  {
    hide InSlot, HoldsCode, Patchable, Unpatchable, SomeFails;
    if layout.textOffset + layout.textSize > imageSize {
      return Refused;
    }
    var patches := [];
    for k := 0 to |rebuilt|
      invariant |patches| == k && AllPatchable(layout, rebuilt[..k])
      invariant forall j :: 0 <= j < k ==>
                  && rebuilt[j].found.Some? && InSlot(layout, imageSize, rebuilt[j].unit, patches[j])
                  && HoldsCode(layout, rebuilt[j].unit, rebuilt[j].found.value, patches[j])
    {
      var p := Prepare(layout, imageSize, rebuilt[k].unit, rebuilt[k].found);
      if !p.Ready? {
        FirstDecides(layout, rebuilt, k);
        if p.Failed? {
          return Failed;
        }
        return Refused;
      }
      assert rebuilt[..k + 1] == rebuilt[..k] + [rebuilt[k]];
      patches := patches + [p.value];
    }
    assert rebuilt[..|rebuilt|] == rebuilt;
    AllNeverFail(layout, rebuilt);
    return Ready(patches);
  }

  function Fields(ps: seq<Patch>): seq<Field> {
    seq(|ps|, k requires 0 <= k < |ps| => Field(ps[k].offset, ps[k].bytes))
  }

  /** Copies every patch into the image; after `PrepareAll` none can miss it. */
  method WriteAll(image: array<Byte>, ps: seq<Patch>)
    requires forall k :: 0 <= k < |ps| ==> ps[k].offset + |ps[k].bytes| <= image.Length
    modifies image
    ensures Written(old(image[..]), Fields(ps), image[..])
  {
    hide Written, Splice;
    ghost var raw := image[..];
    WrittenNone(raw);
    assert Fields(ps[..0]) == [];
    for k := 0 to |ps|
      invariant Written(raw, Fields(ps[..k]), image[..])
    {
      ghost var was := image[..];
      var field := Field(ps[k].offset, ps[k].bytes);
      WriteOne(image, field);
      WriteMore(raw, Fields(ps[..k]), was, field);
      assert Fields(ps[..k + 1]) == Fields(ps[..k]) + [field];
    }
    assert ps[..|ps|] == ps;
  }

  method WriteOne(image: array<Byte>, f: Field)
    requires Fits(f, image.Length)
    modifies image
    ensures image[..] == Splice(old(image[..]), f)
  {
    ghost var was := image[..];
    for k := 0 to |f.bytes|
      invariant image[..] == was[..f.offset] + f.bytes[..k] + was[f.offset + k..]
    {
      image[f.offset + k] := f.bytes[k];
    }
    assert f.bytes[..|f.bytes|] == f.bytes;
  }

  // ---- the layout ----

  /** The recorded layout was linked from exactly these units. */
  predicate Matches(layout: Layout, current: seq<Unit>) {
    && |layout.units| == |current|
    && forall k :: 0 <= k < |current| ==>
         current[k].name in layout.units && layout.units[current[k].name] == current[k].hash
  }

  /** The units are the recorded ones, up to those that were rebuilt. */
  predicate SameClosure(layout: Layout, current: seq<Unit>, rebuilt: seq<Rebuilt>) {
    && |layout.units| == |current|
    && forall k :: 0 <= k < |current| ==>
         && current[k].name in layout.units
         && (layout.units[current[k].name] == current[k].hash
             || exists j :: 0 <= j < |rebuilt| && rebuilt[j].unit.name == current[k].name)
  }

  ghost predicate DistinctNames(current: seq<Unit>) {
    forall j, k :: 0 <= j < k < |current| ==> current[j].name != current[k].name
  }

  function Updated(units: map<Name, Hash>, ps: seq<Patch>): map<Name, Hash> {
    if ps == [] then units
    else Updated(units, ps[..|ps| - 1])[ps[|ps| - 1].name := ps[|ps| - 1].hash]
  }

  /** The hash of the last patch that names the unit, or the recorded one. */
  lemma {:induction false} UpdatedMeaning(units: map<Name, Hash>, ps: seq<Patch>, n: Name)
    ensures n in Updated(units, ps) <==> n in units || exists k :: 0 <= k < |ps| && ps[k].name == n
    ensures n in Updated(units, ps) ==>
              (n in units && Updated(units, ps)[n] == units[n] && forall k :: 0 <= k < |ps| ==> ps[k].name != n)
              || exists k :: 0 <= k < |ps| && LastNamed(ps, k, n) && Updated(units, ps)[n] == ps[k].hash
  {
    hide LastNamed;
    if ps != [] {
      var m := |ps| - 1;
      var init := ps[..m];
      UpdatedMeaning(units, init, n);
      assert forall k :: 0 <= k < m ==> init[k] == ps[k];
      NamedLater(ps, n);
      if k :| 0 <= k < m && init[k].name == n { assert ps[k].name == n; }
    }
  }

  ghost predicate LastNamed(ps: seq<Patch>, k: nat, n: Name)
    requires k < |ps|
  {
    ps[k].name == n && forall j :: k < j < |ps| ==> ps[j].name != n
  }

  lemma NamedLater(ps: seq<Patch>, n: Name)
    requires ps != []
    ensures ps[|ps| - 1].name == n ==> LastNamed(ps, |ps| - 1, n)
    ensures ps[|ps| - 1].name != n ==>
              forall k :: 0 <= k < |ps| - 1 && LastNamed(ps[..|ps| - 1], k, n) ==> LastNamed(ps, k, n)
    ensures forall k :: 0 <= k < |ps| && LastNamed(ps, k, n) ==> ps[k].name == n
  {
    assert forall k :: 0 <= k < |ps| - 1 ==> ps[..|ps| - 1][k] == ps[k];
  }

  /** A slot gets the hash its unit now has when a patch names it; nothing else about it changes. */
  ghost predicate SlotsRecorded(layout: Layout, ps: seq<Patch>, r: Layout) {
    && r.slots.Keys == layout.slots.Keys
    && forall n :: n in layout.slots ==>
         if exists k :: 0 <= k < |ps| && ps[k].name == n
         then n in r.units && r.slots[n] == layout.slots[n].(hash := r.units[n])
         else r.slots[n] == layout.slots[n]
  }

  method Record(layout: Layout, ps: seq<Patch>) returns (r: Layout)
    ensures r.units == Updated(layout.units, ps) && SlotsRecorded(layout, ps, r)
    ensures r == layout.(units := r.units, slots := r.slots)
  {
    hide SlotsRecorded;
    r := layout;
    assert ps[..0] == [];
    assert SlotsRecorded(layout, ps[..0], r) by { NoneRecorded(layout); }
    for k := 0 to |ps|
      invariant r.units == Updated(layout.units, ps[..k]) && SlotsRecorded(layout, ps[..k], r)
      invariant r == layout.(units := r.units, slots := r.slots)
    {
      assert ps[..k + 1][..k] == ps[..k] && ps[..k + 1] == ps[..k] + [ps[k]];
      ghost var was := r;
      r := r.(units := r.units[ps[k].name := ps[k].hash]);
      if ps[k].name in r.slots {
        r := r.(slots := r.slots[ps[k].name := r.slots[ps[k].name].(hash := ps[k].hash)]);
      }
      OneRecorded(layout, ps[..k], ps[k], was, r);
    }
    assert ps[..|ps|] == ps;
  }

  lemma NoneRecorded(layout: Layout)
    ensures SlotsRecorded(layout, [], layout)
  {
  }

  lemma OneRecorded(layout: Layout, ps: seq<Patch>, p: Patch, was: Layout, r: Layout)
    requires SlotsRecorded(layout, ps, was) && r.units == was.units[p.name := p.hash]
    requires r.slots ==
             if p.name in was.slots then was.slots[p.name := was.slots[p.name].(hash := p.hash)] else was.slots
    ensures SlotsRecorded(layout, ps + [p], r)
  {
    var all := ps + [p];
    forall n | n in layout.slots
      ensures if exists k :: 0 <= k < |all| && all[k].name == n
              then n in r.units && r.slots[n] == layout.slots[n].(hash := r.units[n])
              else r.slots[n] == layout.slots[n]
    {
      assert all[|ps|] == p && forall k :: 0 <= k < |ps| ==> all[k] == ps[k];
      if n == p.name {
        assert all[|ps|].name == n;
      }
    }
  }

  /** After a patch the layout is again that of the current units. */
  lemma PatchedMatches(layout: Layout, current: seq<Unit>, rebuilt: seq<Rebuilt>, ps: seq<Patch>)
    requires SameClosure(layout, current, rebuilt) && DistinctNames(current)
    requires |ps| == |rebuilt|
    requires forall k :: 0 <= k < |ps| ==>
               ps[k].name == rebuilt[k].unit.name && ps[k].hash == rebuilt[k].unit.hash && rebuilt[k].unit in current
    ensures Matches(layout.(units := Updated(layout.units, ps)), current)
  {
    var units := Updated(layout.units, ps);
    forall n
      ensures n in units <==> n in layout.units
    {
      UpdatedMeaning(layout.units, ps, n);
    }
    assert units.Keys == layout.units.Keys;
    forall k | 0 <= k < |current|
      ensures current[k].name in units && units[current[k].name] == current[k].hash
    {
      UpdatedHash(layout, current, rebuilt, ps, k);
    }
    assert |units| == |units.Keys| && |layout.units| == |layout.units.Keys|;
  }

  lemma {:induction false} UpdatedHash(layout: Layout, current: seq<Unit>, rebuilt: seq<Rebuilt>, ps: seq<Patch>,
                                       at: nat)
    requires SameClosure(layout, current, rebuilt) && DistinctNames(current) && at < |current|
    requires |ps| == |rebuilt|
    requires forall k :: 0 <= k < |ps| ==>
               ps[k].name == rebuilt[k].unit.name && ps[k].hash == rebuilt[k].unit.hash && rebuilt[k].unit in current
    ensures current[at].name in Updated(layout.units, ps)
    ensures Updated(layout.units, ps)[current[at].name] == current[at].hash
  {
    UpdatedMeaning(layout.units, ps, current[at].name);
    forall j | 0 <= j < |ps| && ps[j].name == current[at].name
      ensures ps[j].hash == current[at].hash
    {
      SameUnit(current, rebuilt[j].unit, at);
    }
  }

  lemma SameUnit(current: seq<Unit>, u: Unit, k: nat)
    requires DistinctNames(current) && k < |current| && u in current && u.name == current[k].name
    ensures u == current[k]
  {
    var i :| 0 <= i < |current| && current[i] == u;
  }

  // ---- the whole patch ----

  /** The image shows each rebuilt function, relocated, in its slot, unless a later slot overlaps it;
      and no byte outside the rebuilt slots changed. */
  ghost predicate Patched(layout: Layout, rebuilt: seq<Rebuilt>, was: seq<Byte>, now: seq<Byte>) {
    exists ps: seq<Patch> :: Answers(layout, |was|, rebuilt, ps) && Written(was, Fields(ps), now)
  }

  /** What is asked before any function is looked at: something to patch, the same units, an image that
      agrees with the layout. */
  predicate Applies(layout: Layout, imageSize: nat, current: seq<Unit>, rebuilt: seq<Rebuilt>, verified: bool) {
    && rebuilt != [] && SameClosure(layout, current, rebuilt) && imageSize > 0 && verified
    && layout.textOffset + layout.textSize <= imageSize
  }

  /** `verified` says that the image's size, digest and text section agree with the layout, and
      `saved` that the new layout reaches its file. Nothing is written before everything is prepared;
      once it is, the image is patched, and the call still fails when the layout is not saved. */
  method TryPatch(image: array<Byte>, layout: Layout, current: seq<Unit>, rebuilt: seq<Rebuilt>, verified: bool,
                  saved: bool)
    returns (r: Outcome<Layout>, ghost prepared: bool)
    requires image.Length < U64
    modifies image
    ensures prepared <==> Applies(layout, image.Length, current, rebuilt, verified) && AllPatchable(layout, rebuilt)
    ensures r.Ready? <==> prepared && saved
    ensures r.Failed? <==>
              || (prepared && !saved)
              || (Applies(layout, image.Length, current, rebuilt, verified) && SomeFails(layout, rebuilt))
    ensures !prepared || (saved && !r.Ready?) ==> image[..] == old(image[..])
    ensures prepared ==> Patched(layout, rebuilt, old(image[..]), image[..])
    ensures r.Ready? && DistinctNames(current) && (forall k :: 0 <= k < |rebuilt| ==> rebuilt[k].unit in current) ==>
              Matches(r.value, current)
  {
    hide Written, Answers, AllPatchable, SomeFails, SameClosure, Matches, DistinctNames;
    if rebuilt == [] || !SameClosure(layout, current, rebuilt) || image.Length == 0 || !verified {
      return Refused, false;
    }
    var patches := PrepareAll(layout, image.Length, rebuilt);
    match patches {
      case Refused => return Refused, false;
      case Failed => return Failed, false;
      case Ready(ps) =>
        AnswersFit(layout, image.Length, rebuilt, ps);
        WriteAll(image, ps);
        var recorded := Record(layout, ps);
        if DistinctNames(current) && forall k :: 0 <= k < |rebuilt| ==> rebuilt[k].unit in current {
          PatchedMatches(layout, current, rebuilt, ps);
          SameUnits(layout, recorded, current);
        }
        AllNeverFail(layout, rebuilt);
        if !saved {
          return Failed, true;
        }
        return Ready(recorded), true;
    }
  }

  lemma SameUnits(layout: Layout, other: Layout, current: seq<Unit>)
    requires Matches(layout.(units := other.units), current)
    ensures Matches(other, current)
  {
  }

  lemma AnswersFit(layout: Layout, imageSize: nat, rebuilt: seq<Rebuilt>, ps: seq<Patch>)
    requires Answers(layout, imageSize, rebuilt, ps)
    ensures |ps| == |rebuilt|
    ensures forall k :: 0 <= k < |ps| ==>
              && ps[k].offset + |ps[k].bytes| <= imageSize
              && ps[k].name == rebuilt[k].unit.name && ps[k].hash == rebuilt[k].unit.hash
  {
    hide HoldsCode;
    forall k | 0 <= k < |ps|
      ensures ps[k].offset + |ps[k].bytes| <= imageSize
    {
      assert InSlot(layout, imageSize, rebuilt[k].unit, ps[k]);
    }
  }

  /** In particular nothing outside the text section changes. */
  lemma OutsideText(layout: Layout, rebuilt: seq<Rebuilt>, was: seq<Byte>, now: seq<Byte>, k: nat)
    requires Patched(layout, rebuilt, was, now) && k < |was|
    requires k < layout.textOffset || layout.textOffset + layout.textSize <= k
    ensures |now| == |was| && now[k] == was[k]
  {
    hide HoldsCode;
    var ps :| Answers(layout, |was|, rebuilt, ps) && Written(was, Fields(ps), now);
    assert forall j :: 0 <= j < |ps| ==> InSlot(layout, |was|, rebuilt[j].unit, ps[j]);
    assert Outside(Fields(ps), k);
  }
}
