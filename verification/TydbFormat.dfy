/**
  The tydb debug file: what it records, and what it means for a byte sequence to hold it.
  Text is modelled by its UTF-8 bytes.
 */
module TydbFormat {
  import opened Bytes

  datatype Str = Null | Text(bytes: seq<Byte>)

  datatype Location =
    | Register(name: Str, length: I32)
    | Memory(addr: U64, length: I32)
    | ContentsOf(inner: Location, offset: I32, length: I32)

  datatype Line = Line(il: I32, compiled: I32)

  datatype VarArg = VarArg(name: Str, location: Location)

  datatype Function = Function(file: Str, token: U32, name: Str, text: U32,
                               lines: seq<Line>, vars: seq<VarArg>, args: seq<VarArg>)

  datatype File = File(compiled: Str, functions: seq<Function>)

  // ------------------------------------------------- what a file can keep of its input

  /** The bytes before the first NUL. */
  function UpToNul(s: seq<Byte>): (r: seq<Byte>)
    ensures 0 !in r && |r| <= |s| && s[..|r|] == r && (|r| < |s| ==> s[|r|] == 0)
  {
    if s == [] || s[0] == 0 then [] else [s[0]] + UpToNul(s[1..])
  }

  function NormStr(s: Str): Str {
    match s
    case Null => Text([])
    case Text(b) => Text(UpToNul(b))
  }

  /** `(byte)x`, read back as a number. */
  function NormLength(x: I32): I32 {
    x % 256
  }

  function NormLoc(l: Location): Location {
    match l
    case Register(name, len) => Register(NormStr(name), NormLength(len))
    case Memory(addr, len) => Memory(addr, NormLength(len))
    case ContentsOf(inner, off, len) => ContentsOf(NormLoc(inner), off, NormLength(len))
  }

  function NormVar(v: VarArg): VarArg {
    VarArg(NormStr(v.name), NormLoc(v.location))
  }

  function NormVars(vs: seq<VarArg>): (r: seq<VarArg>)
    ensures |r| == |vs| && forall i :: 0 <= i < |vs| ==> r[i] == NormVar(vs[i])
  {
    seq(|vs|, i requires 0 <= i < |vs| => NormVar(vs[i]))
  }

  function NormFun(f: Function): Function {
    f.(file := NormStr(f.file), name := NormStr(f.name), vars := NormVars(f.vars), args := NormVars(f.args))
  }

  function NormFuns(fs: seq<Function>): (r: seq<Function>)
    ensures |r| == |fs| && forall i :: 0 <= i < |fs| ==> r[i] == NormFun(fs[i])
  {
    seq(|fs|, i requires 0 <= i < |fs| => NormFun(fs[i]))
  }

  function NormFile(f: File): File {
    File(NormStr(f.compiled), NormFuns(f.functions))
  }

  // ------------------------------------------------------------- inputs kept exactly

  predicate PlainStr(s: Str) {
    s.Text? && 0 !in s.bytes
  }

  predicate PlainLoc(l: Location) {
    && 0 <= l.length < 256
    && match l
       case Register(name, _) => PlainStr(name)
       case Memory(_, _) => true
       case ContentsOf(inner, _, _) => PlainLoc(inner)
  }

  predicate PlainVars(vs: seq<VarArg>) {
    forall i :: 0 <= i < |vs| ==> PlainStr(vs[i].name) && PlainLoc(vs[i].location)
  }

  predicate PlainFun(f: Function) {
    PlainStr(f.file) && PlainStr(f.name) && PlainVars(f.vars) && PlainVars(f.args)
  }

  predicate PlainFile(f: File) {
    PlainStr(f.compiled) && forall i :: 0 <= i < |f.functions| ==> PlainFun(f.functions[i])
  }

  lemma PlainStrKept(s: Str)
    ensures NormStr(s) == s <==> PlainStr(s)
  {
    if s.Text? {
      var r := UpToNul(s.bytes);
      if |r| == |s.bytes| {
        assert s.bytes == s.bytes[..|r|];
      }
    }
  }

  lemma {:induction false} PlainLocKept(l: Location)
    ensures NormLoc(l) == l <==> PlainLoc(l)
  {
    match l
    case Register(name, _) => PlainStrKept(name);
    case Memory(_, _) =>
    case ContentsOf(inner, _, _) => PlainLocKept(inner);
  }

  lemma PlainVarsKept(vs: seq<VarArg>)
    ensures NormVars(vs) == vs <==> PlainVars(vs)
  {
    forall i | 0 <= i < |vs|
      ensures NormVars(vs)[i] == vs[i] <==> PlainStr(vs[i].name) && PlainLoc(vs[i].location)
    {
      PlainStrKept(vs[i].name);
      PlainLocKept(vs[i].location);
    }
  }

  lemma PlainFunKept(f: Function)
    ensures NormFun(f) == f <==> PlainFun(f)
  {
    PlainStrKept(f.file);
    PlainStrKept(f.name);
    PlainVarsKept(f.vars);
    PlainVarsKept(f.args);
  }

  /** A file survives exactly when its text is non-null and NUL-free and its lengths are bytes. */
  lemma PlainFileKept(f: File)
    ensures NormFile(f) == f <==> PlainFile(f)
  {
    PlainStrKept(f.compiled);
    forall i | 0 <= i < |f.functions|
      ensures NormFuns(f.functions)[i] == f.functions[i] <==> PlainFun(f.functions[i])
    {
      PlainFunKept(f.functions[i]);
    }
  }

  // ------------------------------------------------------------------- the format

  /** A section: bytes from a base offset on. */
  datatype View = View(b: seq<Byte>, base: nat)

  lemma {:induction false} NumBelow(b: seq<Byte>, i: nat, k: nat)
    ensures NumAt(b, i, k) < Pow256(k)
    decreases k
  {
    if k > 0 {
      NumBelow(b, i + 1, k - 1);
    }
  }

  function U32At(b: seq<Byte>, i: nat): U32 {
    NumBelow(b, i, 4);
    FitsWord(NumAt(b, i, 4));
    NumAt(b, i, 4)
  }

  function I32At(b: seq<Byte>, i: nat): I32 {
    FromU32(U32At(b, i))
  }

  function U64At(b: seq<Byte>, i: nat): U64 {
    NumBelow(b, i, 8);
    FitsWord(NumAt(b, i, 8));
    NumAt(b, i, 8)
  }

  /** The NUL-terminated text at `id` of the string section. */
  ghost predicate TextAt(sv: View, id: int, s: Str) {
    s.Text? && 0 !in s.bytes && id >= 0 && Holds(sv.b, sv.base + id, s.bytes + [0])
  }

  /** The location at `id` of the location section; a nested one has a smaller id. */
  ghost predicate LocAt(cv: View, sv: View, id: int, loc: Location)
    decreases loc
  {
    id >= 0 &&
    var at := cv.base + id;
    match loc
    case Register(name, len) =>
      && at + 9 <= |cv.b| && I32At(cv.b, at) == 0
      && TextAt(sv, I32At(cv.b, at + 4), name) && cv.b[at + 8] == len
    case Memory(addr, len) =>
      && at + 13 <= |cv.b| && I32At(cv.b, at) == 1
      && U64At(cv.b, at + 4) == addr && cv.b[at + 12] == len
    case ContentsOf(inner, off, len) =>
      && at + 17 <= |cv.b| && I32At(cv.b, at) == 2
      && I32At(cv.b, at + 4) < id && LocAt(cv, sv, I32At(cv.b, at + 4), inner)
      && LowI32(U64At(cv.b, at + 8)) == off && cv.b[at + 16] == len
  }

  ghost predicate LinesAt(b: seq<Byte>, at: nat, ls: seq<Line>) {
    && at + 8 * |ls| <= |b|
    && forall j :: 0 <= j < |ls| ==> LineAt(b, at + 8 * j, ls[j])
  }

  ghost predicate LineAt(b: seq<Byte>, at: nat, l: Line) {
    I32At(b, at) == l.il && I32At(b, at + 4) == l.compiled
  }

  ghost predicate VarAt(b: seq<Byte>, at: nat, cv: View, sv: View, v: VarArg) {
    TextAt(sv, I32At(b, at), v.name) && LocAt(cv, sv, I32At(b, at + 4), v.location)
  }

  ghost predicate VarsAt(b: seq<Byte>, at: nat, cv: View, sv: View, vs: seq<VarArg>) {
    && at + 8 * |vs| <= |b|
    && forall j :: 0 <= j < |vs| ==> VarAt(b, at + 8 * j, cv, sv, vs[j])
  }

  /** Where the sections lie. */
  datatype Sections = Sections(lines: View, vars: View, locs: View, strings: View)

  /** A 40-byte function record at `at`. */
  ghost predicate FunAt(b: seq<Byte>, at: nat, s: Sections, f: Function) {
    && at + 40 <= |b|
    && TextAt(s.strings, I32At(b, at), f.file) && U32At(b, at + 4) == f.token
    && TextAt(s.strings, I32At(b, at + 8), f.name) && U32At(b, at + 12) == f.text
    && I32At(b, at + 16) >= 0 && I32At(b, at + 20) == |f.lines|
    && LinesAt(s.lines.b, s.lines.base + I32At(b, at + 16), f.lines)
    && I32At(b, at + 24) >= 0 && I32At(b, at + 28) == |f.vars|
    && VarsAt(s.vars.b, s.vars.base + I32At(b, at + 24), s.locs, s.strings, f.vars)
    && I32At(b, at + 32) >= 0 && I32At(b, at + 36) == |f.args|
    && VarsAt(s.vars.b, s.vars.base + I32At(b, at + 32), s.locs, s.strings, f.args)
  }

  ghost predicate FunsAt(b: seq<Byte>, at: nat, s: Sections, fs: seq<Function>) {
    forall k :: 0 <= k < |fs| ==> FunAt(b, at + 40 * k, s, fs[k])
  }

  /** The sections named by the offsets in a file's header. */
  function SectionsOf(data: seq<Byte>): Sections
    requires I32At(data, 12) >= 0 && I32At(data, 16) >= 0 && I32At(data, 20) >= 0 && I32At(data, 24) >= 0
  {
    Sections(View(data, I32At(data, 12)), View(data, I32At(data, 16)), View(data, I32At(data, 24)), View(data, I32At(data, 20)))
  }

  /** `data` is a file that holds `f`. */
  ghost predicate Represents(data: seq<Byte>, f: File) {
    && 36 <= |data| < 0x8000_0000
    && U32At(data, 0) == 0x42445954 && U32At(data, 4) == 1
    && I32At(data, 8) >= 0 && I32At(data, 12) >= 0 && I32At(data, 16) >= 0 && I32At(data, 20) >= 0 && I32At(data, 24) >= 0
    && I32At(data, 28) == |f.functions|
    && TextAt(SectionsOf(data).strings, I32At(data, 32), f.compiled)
    && FunsAt(data, I32At(data, 8), SectionsOf(data), f.functions)
  }

  // ------------------------------------------------------- moving sections into place

  lemma NumsMoved(v: View, s: seq<Byte>, i: nat)
    requires Holds(v.b, v.base, s)
    ensures i + 4 <= |s| ==> U32At(v.b, v.base + i) == U32At(s, i) && I32At(v.b, v.base + i) == I32At(s, i)
    ensures i + 8 <= |s| ==> U64At(v.b, v.base + i) == U64At(s, i)
    ensures i < |s| ==> v.base + i < |v.b| && v.b[v.base + i] == s[i]
  {
    hide NumAt, FromU32;
    if i + 4 <= |s| { NumAtEmbedded(v.b, v.base, s, i, 4); }
    if i + 8 <= |s| { NumAtEmbedded(v.b, v.base, s, i, 8); }
    if i < |s| { assert v.b[v.base + i] == v.b[v.base..v.base + |s|][i]; }
  }

  lemma TextMoved(ss: seq<Byte>, sv: View, id: int, s: Str)
    requires TextAt(View(ss, 0), id, s) && Holds(sv.b, sv.base, ss)
    ensures TextAt(sv, id, s)
  {
    var t := s.bytes + [0];
    assert sv.b[sv.base + id..sv.base + id + |t|] == sv.b[sv.base..sv.base + |ss|][id..id + |t|];
  }

  /** A location keeps its meaning when its section and the string section are extended or moved. */
  lemma {:induction false} LocMoved(cs: seq<Byte>, ss: seq<Byte>, cv: View, sv: View, id: int, loc: Location)
    requires LocAt(View(cs, 0), View(ss, 0), id, loc) && Holds(cv.b, cv.base, cs) && Holds(sv.b, sv.base, ss)
    ensures LocAt(cv, sv, id, loc)
    decreases loc
  {
    hide I32At, U32At, U64At, LowI32, TextAt, Holds;
    NumsMoved(cv, cs, id);
    NumsMoved(cv, cs, id + 4);
    match loc
    case Register(name, _) =>
      NumsMoved(cv, cs, id + 8);
      TextMoved(ss, sv, I32At(cs, id + 4), name);
    case Memory(_, _) =>
      NumsMoved(cv, cs, id + 12);
    case ContentsOf(inner, _, _) =>
      NumsMoved(cv, cs, id + 8);
      NumsMoved(cv, cs, id + 16);
      LocMoved(cs, ss, cv, sv, I32At(cs, id + 4), inner);
  }

  lemma LinesMoved(b: seq<Byte>, v: View, at: nat, ls: seq<Line>)
    requires LinesAt(b, at, ls) && Holds(v.b, v.base, b)
    ensures LinesAt(v.b, v.base + at, ls)
  {
    hide I32At, U32At, U64At;
    forall j | 0 <= j < |ls| ensures LineAt(v.b, v.base + at + 8 * j, ls[j]) {
      assert LineAt(b, at + 8 * j, ls[j]);
      NumsMoved(v, b, at + 8 * j);
      NumsMoved(v, b, at + 8 * j + 4);
    }
  }

  lemma VarsMoved(b: seq<Byte>, v: View, at: nat, cs: seq<Byte>, ss: seq<Byte>, cv: View, sv: View, vs: seq<VarArg>)
    requires VarsAt(b, at, View(cs, 0), View(ss, 0), vs)
    requires Holds(v.b, v.base, b) && Holds(cv.b, cv.base, cs) && Holds(sv.b, sv.base, ss)
    ensures VarsAt(v.b, v.base + at, cv, sv, vs)
  {
    hide I32At, U32At, U64At, TextAt, LocAt;
    forall j | 0 <= j < |vs| ensures VarAt(v.b, v.base + at + 8 * j, cv, sv, vs[j]) {
      assert VarAt(b, at + 8 * j, View(cs, 0), View(ss, 0), vs[j]);
      NumsMoved(v, b, at + 8 * j);
      NumsMoved(v, b, at + 8 * j + 4);
      TextMoved(ss, sv, I32At(b, at + 8 * j), vs[j].name);
      LocMoved(cs, ss, cv, sv, I32At(b, at + 8 * j + 4), vs[j].location);
    }
  }

  /** The sections as separate byte lists, before they are joined. */
  function Loose(lines: seq<Byte>, vars: seq<Byte>, locs: seq<Byte>, strings: seq<Byte>): Sections {
    Sections(View(lines, 0), View(vars, 0), View(locs, 0), View(strings, 0))
  }

  ghost predicate Placed(l: Sections, s: Sections) {
    && Holds(s.lines.b, s.lines.base, l.lines.b) && Holds(s.vars.b, s.vars.base, l.vars.b)
    && Holds(s.locs.b, s.locs.base, l.locs.b) && Holds(s.strings.b, s.strings.base, l.strings.b)
  }

  lemma FunMoved(b: seq<Byte>, at: nat, v: View, l: Sections, s: Sections, f: Function)
    requires l == Loose(l.lines.b, l.vars.b, l.locs.b, l.strings.b) && Placed(l, s) && Holds(v.b, v.base, b)
    requires FunAt(b, at, l, f)
    ensures FunAt(v.b, v.base + at, s, f)
  {
    hide LocAt, LinesAt, VarsAt, TextAt, Holds, I32At, U32At;
    FunNumbers(b, at, v);
    TextMoved(l.strings.b, s.strings, I32At(b, at), f.file);
    TextMoved(l.strings.b, s.strings, I32At(b, at + 8), f.name);
    LinesMoved(l.lines.b, s.lines, I32At(b, at + 16), f.lines);
    VarsMoved(l.vars.b, s.vars, I32At(b, at + 24), l.locs.b, l.strings.b, s.locs, s.strings, f.vars);
    VarsMoved(l.vars.b, s.vars, I32At(b, at + 32), l.locs.b, l.strings.b, s.locs, s.strings, f.args);
  }

  lemma FunNumbers(b: seq<Byte>, at: nat, v: View)
    requires Holds(v.b, v.base, b) && at + 40 <= |b|
    ensures v.base + at + 40 <= |v.b|
    ensures I32At(v.b, v.base + at) == I32At(b, at) && U32At(v.b, v.base + at + 4) == U32At(b, at + 4)
    ensures I32At(v.b, v.base + at + 8) == I32At(b, at + 8) && U32At(v.b, v.base + at + 12) == U32At(b, at + 12)
    ensures I32At(v.b, v.base + at + 16) == I32At(b, at + 16) && I32At(v.b, v.base + at + 20) == I32At(b, at + 20)
    ensures I32At(v.b, v.base + at + 24) == I32At(b, at + 24) && I32At(v.b, v.base + at + 28) == I32At(b, at + 28)
    ensures I32At(v.b, v.base + at + 32) == I32At(b, at + 32) && I32At(v.b, v.base + at + 36) == I32At(b, at + 36)
  {
    hide I32At, U32At, U64At;
    NumsMoved(v, b, at);
    NumsMoved(v, b, at + 4);
    NumsMoved(v, b, at + 8);
    NumsMoved(v, b, at + 12);
    NumsMoved(v, b, at + 16);
    NumsMoved(v, b, at + 20);
    NumsMoved(v, b, at + 24);
    NumsMoved(v, b, at + 28);
    NumsMoved(v, b, at + 32);
    NumsMoved(v, b, at + 36);
  }
}
