/** The tydb writer (tydbfile/Writer.cs): interned strings, shared locations, five sections. */
module TydbWriter {
  import opened Bytes
  import opened Options
  import opened TydbFormat
  import opened TydbTables

  // --------------------------------------------------------------- record contents

  /** Bytes appended at the end of a section. */
  lemma AppendHolds(b: seq<Byte>, s: seq<Byte>, t: seq<Byte>)
    ensures Holds(b + s + t, |b|, s) && Holds(b + s + t, 0, b) && Holds(b + s, |b|, s) && Holds(b + s, 0, b)
  {
    assert (b + s + t)[|b|..|b| + |s|] == s;
    assert (b + s + t)[0..|b|] == b;
    assert (b + s)[|b|..|b| + |s|] == s;
    assert (b + s)[0..|b|] == b;
  }

  /** Part of what stands in `b` at `i`. */
  lemma HoldsPart(b: seq<Byte>, i: nat, s: seq<Byte>, j: nat, t: seq<Byte>)
    requires Holds(b, i, s) && Holds(s, j, t)
    ensures Holds(b, i + j, t)
  {
    forall k | 0 <= k < |t| ensures b[i + j + k] == t[k] {
      assert b[i..i + |s|][j + k] == s[j + k];
      assert s[j..j + |t|][k] == t[k];
    }
    assert b[i + j..i + j + |t|] == t;
  }

  lemma HoldsSelf(b: seq<Byte>)
    ensures Holds(b, 0, b)
  {
    assert b[0..|b|] == b;
  }

  lemma NumHeld(b: seq<Byte>, i: nat, x: nat)
    requires Holds(b, i, LE(x, 4)) && x < 0x1_0000_0000
    ensures U32At(b, i) == x && I32At(b, i) == FromU32(x)
  {
    hide LE, NumAt;
    FitsWord(x);
    NumAtLE(b, i, x, 4);
  }

  lemma LongHeld(b: seq<Byte>, i: nat, x: nat)
    requires Holds(b, i, LE(x, 8)) && x < 0x1_0000_0000_0000_0000
    ensures U64At(b, i) == x
  {
    hide LE, NumAt;
    FitsWord(x);
    NumAtLE(b, i, x, 8);
  }

  function RegisterRecord(nameId: nat, len: I32): seq<Byte> {
    LE(0, 4) + LE(nameId, 4) + [len % 256]
  }

  function MemoryRecord(addr: U64, len: I32): seq<Byte> {
    LE(1, 4) + LE(addr, 8) + [len % 256]
  }

  function ContentsRecord(innerId: nat, off: I32, len: I32): seq<Byte> {
    LE(2, 4) + LE(innerId, 4) + LE(ToU64(off), 8) + [len % 256]
  }

  lemma RegisterRecordMeans(b: seq<Byte>, at: nat, ss: seq<Byte>, nameId: nat, name: Str, len: I32)
    requires Holds(b, at, RegisterRecord(nameId, len)) && nameId < 0x8000_0000 && TextAt(View(ss, 0), nameId, name)
    ensures LocAt(View(b, 0), View(ss, 0), at, Register(name, NormLength(len)))
  {
    hide LE, I32At, U32At, TextAt;
    var r := RegisterRecord(nameId, len);
    assert Holds(r, 0, LE(0, 4)) && Holds(r, 4, LE(nameId, 4)) && r[8] == len % 256;
    HoldsPart(b, at, r, 0, LE(0, 4));
    HoldsPart(b, at, r, 4, LE(nameId, 4));
    NumHeld(b, at, 0);
    NumHeld(b, at + 4, nameId);
    assert b[at + 8] == b[at..at + |r|][8];
  }

  lemma MemoryRecordMeans(b: seq<Byte>, at: nat, ss: seq<Byte>, addr: U64, len: I32)
    requires Holds(b, at, MemoryRecord(addr, len))
    ensures LocAt(View(b, 0), View(ss, 0), at, Memory(addr, NormLength(len)))
  {
    hide LE, I32At, U32At, U64At;
    var r := MemoryRecord(addr, len);
    assert Holds(r, 0, LE(1, 4)) && Holds(r, 4, LE(addr, 8)) && r[12] == len % 256;
    HoldsPart(b, at, r, 0, LE(1, 4));
    HoldsPart(b, at, r, 4, LE(addr, 8));
    NumHeld(b, at, 1);
    LongHeld(b, at + 4, addr);
    assert b[at + 12] == b[at..at + |r|][12];
  }

  lemma ContentsRecordMeans(b: seq<Byte>, at: nat, ss: seq<Byte>, innerId: nat, inner: Location, off: I32, len: I32)
    requires Holds(b, at, ContentsRecord(innerId, off, len)) && innerId < 0x8000_0000 && innerId < at
    requires LocAt(View(b, 0), View(ss, 0), innerId, inner)
    ensures LocAt(View(b, 0), View(ss, 0), at, ContentsOf(inner, off, NormLength(len)))
  {
    hide LE, I32At, U32At, U64At, LowI32, ToU64;
    var r := ContentsRecord(innerId, off, len);
    assert Holds(r, 0, LE(2, 4)) && Holds(r, 4, LE(innerId, 4)) && Holds(r, 8, LE(ToU64(off), 8)) && r[16] == len % 256;
    HoldsPart(b, at, r, 0, LE(2, 4));
    HoldsPart(b, at, r, 4, LE(innerId, 4));
    HoldsPart(b, at, r, 8, LE(ToU64(off), 8));
    NumHeld(b, at, 2);
    NumHeld(b, at + 4, innerId);
    LongHeld(b, at + 8, ToU64(off));
    SignRoundTrip(off);
    assert b[at + 16] == b[at..at + |r|][16];
  }

  /** Raw text followed by a NUL reads as the text up to its first NUL. */
  lemma RawText(ss: seq<Byte>, id: nat, s: seq<Byte>)
    requires Holds(ss, id, s + [0])
    ensures TextAt(View(ss, 0), id, Text(UpToNul(s)))
  {
    var r := UpToNul(s);
    assert (s + [0])[..|r| + 1] == r + [0];
    assert ss[id..id + |r| + 1] == ss[id..id + |s| + 1][..|r| + 1];
  }

  ghost predicate StringsOk(strings: seq<Byte>, offsets: map<seq<Byte>, nat>) {
    && |strings| > 0 && strings[0] == 0
    && forall s :: s in offsets ==> Holds(strings, offsets[s], s + [0])
  }

  ghost predicate Small(locs: seq<Byte>, strings: seq<Byte>) {
    |locs| < 0x8000_0000 && |strings| < 0x8000_0000
  }

  /** Cached locations can be found where the cache says, as long as ids fit an int. */
  ghost predicate CacheOk(cache: map<Location, nat>, locs: seq<Byte>, strings: seq<Byte>) {
    Small(locs, strings) ==>
      forall l :: l in cache ==> LocAt(View(locs, 0), View(strings, 0), cache[l], NormLoc(l)) && cache[l] < |locs|
  }

  lemma CacheGrows(cache: map<Location, nat>, locs: seq<Byte>, strings: seq<Byte>, locs': seq<Byte>, strings': seq<Byte>)
    requires CacheOk(cache, locs, strings) && Holds(locs', 0, locs) && Holds(strings', 0, strings)
    ensures CacheOk(cache, locs', strings')
  {
    hide LocAt;
    if Small(locs', strings') {
      forall l | l in cache ensures LocAt(View(locs', 0), View(strings', 0), cache[l], NormLoc(l)) {
        LocMoved(locs, strings, View(locs', 0), View(strings', 0), cache[l], NormLoc(l));
      }
    }
  }

  lemma CacheHolds(cache: map<Location, nat>, locs: seq<Byte>, strings: seq<Byte>, l: Location)
    requires CacheOk(cache, locs, strings) && l in cache
    ensures Small(locs, strings) ==> LocAt(View(locs, 0), View(strings, 0), cache[l], NormLoc(l)) && cache[l] < |locs|
  {
    hide LocAt;
  }

  lemma SizePositive(l: Location)
    ensures LocSize(l) > 0
  {
  }

  lemma StringsGrow(strings: seq<Byte>, offsets: map<seq<Byte>, nat>, s: seq<Byte>)
    requires StringsOk(strings, offsets)
    ensures StringsOk(strings + s + [0], offsets[s := |strings|]) && Holds(strings + s + [0], 0, strings)
  {
    var n := strings + s + [0];
    var o := offsets[s := |strings|];
    assert n == strings + (s + [0]);
    AppendHolds(strings, s + [0], []);
    forall t | t in o ensures Holds(n, o[t], t + [0]) {
      if t != s {
        HoldsPart(n, 0, strings, offsets[t], t + [0]);
      }
    }
  }

  class Writer {
    var offsets: map<seq<Byte>, nat>     // string_table_offsets
    var strings: seq<Byte>               // string_table
    var stringsEnd: nat                  // string_table_offset
    var cache: map<Location, nat>        // location_cache
    var locs: seq<Byte>
    var vars: seq<Byte>
    var lines: seq<Byte>
    var functions: seq<Byte>
    ghost var order: seq<seq<Byte>>      // the texts interned, in order
    ghost var placed: seq<Location>      // the locations written, in order

    constructor ()
      ensures Valid() && strings == [0] && locs == [] && vars == [] && lines == [] && functions == []
      ensures order == [] && placed == []
    {
      offsets, strings, stringsEnd := map[], [0], 1;
      cache, locs, vars, lines, functions := map[], [], [], [], [];
      order, placed := [], [];
    }

    ghost predicate Valid()
      reads this
    {
      && StringsOk(strings, offsets) && stringsEnd == |strings| && CacheOk(cache, locs, strings)
      && Interned(order, strings, offsets) && Cached(placed, |locs|, cache, order)
    }

    /**
      Interns a text: it is in the table afterwards, once, and so the same text always gets the same
      id; it reads back up to its first NUL.
     */
    method GetStringTableOffset(s: Str) returns (id: nat)
      requires Valid()
      modifies this`offsets, this`strings, this`stringsEnd, this`order
      ensures Valid() && Holds(strings, 0, old(strings))
      ensures TextAt(View(strings, 0), id, NormStr(s)) && id < |strings|
      ensures s.Text? && s.bytes in old(offsets) ==> id == old(offsets)[s.bytes] && strings == old(strings)
      ensures offsets == if s.Text? then old(offsets)[s.bytes := id] else old(offsets)
      ensures order == Noted(old(order), s)
    {
      hide LocAt, TextsAt, LocsAt, Section, NoDup, LocText, Sizes;
      HoldsSelf(strings);
      if s.Null? {
        assert Holds(strings, 0, [] + [0]);
        RawText(strings, 0, []);
        return 0;
      }
      if s.bytes in offsets {
        RawText(strings, offsets[s.bytes], s.bytes);
        return offsets[s.bytes];
      }
      InternOne(order, strings, offsets, s.bytes);
      CachedStill(placed, |locs|, cache, order, s);
      order := order + [s.bytes];
      HoldsSelf(locs);
      StringsGrow(strings, offsets, s.bytes);
      CacheGrows(cache, locs, strings, locs, strings + s.bytes + [0]);
      id := stringsEnd;
      offsets := offsets[s.bytes := stringsEnd];
      strings := strings + s.bytes + [0];
      stringsEnd := stringsEnd + |s.bytes| + 1;
      RawText(strings, id, s.bytes);
    }

    /**
      Writes a location once: an inner location before the outer one, so that its id is
      smaller.  The id leads to the location as the file can keep it.
     */
    method WriteLocation(l: Location) returns (id: nat)
      requires Valid()
      modifies this`offsets, this`strings, this`stringsEnd, this`order, this`cache, this`placed, this`locs
      ensures Valid() && Holds(strings, 0, old(strings)) && Holds(locs, 0, old(locs))
      ensures Small(locs, strings) ==> LocAt(View(locs, 0), View(strings, 0), id, NormLoc(l)) && id < |locs|
      ensures l in old(cache) ==> id == old(cache)[l] && locs == old(locs) && strings == old(strings)
      ensures l in cache && cache[l] == id
      ensures placed == Shared(old(placed), l) && order == Noted(old(order), LocText(l))
      decreases l
    {
      hide LocAt, Holds, StringsOk, LE, Interned, CacheOk, LocsAt, NoDup, Sizes;
      HoldsSelf(strings);
      HoldsSelf(locs);
      if l in cache {
        CacheHolds(cache, locs, strings, l);
        return cache[l];
      }
      var contentsOf := 0;
      if l.ContentsOf? {
        contentsOf := WriteLocation(l.inner);
        StillMissing(old(placed), l);
      }
      ghost var s0 := strings;
      var buf := LocationRecord(l, contentsOf);
      HoldsPrefix(strings, s0, old(strings));
      TextNoted(old(order), LocText(l));
      id := AddRecord(l, buf, old(locs));
    }

    /** The record of a location, whose inner location is written already. */
    method LocationRecord(l: Location, contentsOf: nat) returns (buf: seq<Byte>)
      requires Valid()
      requires l.ContentsOf? && Small(locs, strings) ==>
                 LocAt(View(locs, 0), View(strings, 0), contentsOf, NormLoc(l.inner)) && contentsOf < |locs|
      modifies this`offsets, this`strings, this`stringsEnd, this`order
      ensures Valid() && Holds(strings, 0, old(strings)) && |buf| == LocSize(l)
      ensures order == if l.Register? then Noted(old(order), l.name) else old(order)
      ensures Small(locs + buf, strings) ==> LocAt(View(locs + buf, 0), View(strings, 0), |locs|, NormLoc(l))
    {
      hide LocAt, Holds, StringsOk, LE, Interned, Cached, CacheOk;
      HoldsSelf(strings);
      var id := |locs|;
      match l {
        case Register(name, len) =>
          var nameId := GetStringTableOffset(name);
          buf := RegisterRecord(nameId, len);
          AppendHolds(locs, buf, []);
          if Small(locs + buf, strings) {
            RegisterRecordMeans(locs + buf, id, strings, nameId, NormStr(name), len);
          }
        case Memory(addr, len) =>
          buf := MemoryRecord(addr, len);
          AppendHolds(locs, buf, []);
          MemoryRecordMeans(locs + buf, id, strings, addr, len);
        case ContentsOf(inner, off, len) =>
          buf := ContentsRecord(contentsOf, off, len);
          AppendHolds(locs, buf, []);
          if Small(locs + buf, strings) {
            LocMoved(locs, strings, View(locs + buf, 0), View(strings, 0), contentsOf, NormLoc(inner));
            ContentsRecordMeans(locs + buf, id, strings, contentsOf, NormLoc(inner), off, len);
          }
      }
    }

    /** A record is added, and where it is is remembered. */
    method AddRecord(l: Location, buf: seq<Byte>, ghost locs0: seq<Byte>) returns (id: nat)
      requires Valid() && l !in cache && (LocText(l).Text? ==> LocText(l).bytes in order) && Holds(locs, 0, locs0)
      requires |buf| == LocSize(l) && (Small(locs + buf, strings) ==> LocAt(View(locs + buf, 0), View(strings, 0), |locs|, NormLoc(l)))
      modifies this`cache, this`placed, this`locs
      ensures Valid() && id == |old(locs)| && locs == old(locs) + buf && Holds(locs, 0, locs0)
      ensures cache == old(cache)[l := id] && placed == old(placed) + [l]
    {
      hide LocAt, Holds, StringsOk, Interned, LocText, LocSize, Cached, NormLoc;
      HoldsSelf(strings);
      AppendHolds(locs, buf, []);
      CacheGrows(cache, locs, strings, locs + buf, strings);
      HoldsPrefix(locs + buf, locs, locs0);
      CacheOne(placed, |locs|, cache, order, l);
      id := |locs|;
      SizePositive(l);
      cache := cache[l := id];
      placed := placed + [l];
      locs := locs + buf;
    }

    method WriteVarArg(v: VarArg)
      requires Valid()
      modifies this`offsets, this`strings, this`stringsEnd, this`order, this`cache, this`placed, this`locs, this`vars
      ensures Valid() && Grown(old(strings), strings, old(locs), locs) && Holds(vars, 0, old(vars)) && |vars| == |old(vars)| + 8
      ensures Small(locs, strings) ==> VarAt(vars, |old(vars)|, View(locs, 0), View(strings, 0), NormVar(v))
      ensures order == NotedAll(old(order), VarTexts(v)) && placed == Shared(old(placed), v.location)
    {
      hide LocAt, Holds, StringsOk, LE, TextAt, I32At, U32At, CacheOk, Interned, Cached, Noted, NotedAll, VarTexts, Shared;
      VarNoted(order, v);
      ghost var s0 := strings;
      var nameId := GetStringTableOffset(v.name);
      ghost var s1, l1 := strings, locs;
      var locId := WriteLocation(v.location);
      HoldsPrefix(strings, s1, s0);
      HoldsSize(s1, strings, l1, locs);
      TextMoved(s1, View(strings, 0), nameId, NormStr(v.name));
      var buf := LE(nameId, 4) + LE(locId, 4);
      AppendHolds(vars, buf, []);
      if Small(locs, strings) {
        PairRecord(vars + buf, |vars|, nameId, locId);
      }
      vars := vars + buf;
    }

    method WriteVars(vs: seq<VarArg>) returns (start: nat)
      requires Valid()
      modifies this`offsets, this`strings, this`stringsEnd, this`order, this`cache, this`placed, this`locs, this`vars
      ensures Valid() && Grown(old(strings), strings, old(locs), locs) && Holds(vars, 0, old(vars))
      ensures start == |old(vars)| && |vars| == start + 8 * |vs|
      ensures Small(locs, strings) ==> VarsAt(vars, start, View(locs, 0), View(strings, 0), NormVars(vs))
      ensures order == NotedAll(old(order), VarsTexts(vs)) && placed == SharedAll(old(placed), VarsLocs(vs))
    {
      hide LocAt, Holds, StringsOk, CacheOk, VarAt, Interned, Cached, Noted, NotedAll, VarTexts, VarsTexts, Shared, SharedAll, VarsLocs;
      NoneNoted(order, placed);
      assert vs[..0] == [];
      start := |vars|;
      GrownSelf(strings, locs);
      HoldsSelf(vars);
      var i := 0;
      while i < |vs|
        invariant 0 <= i <= |vs|
        invariant Valid() && Grown(old(strings), strings, old(locs), locs) && Holds(vars, 0, old(vars))
        invariant |vars| == start + 8 * i
        invariant order == NotedAll(old(order), VarsTexts(vs[..i])) && placed == SharedAll(old(placed), VarsLocs(vs[..i]))
        invariant Small(locs, strings) ==> VarsAt(vars, start, View(locs, 0), View(strings, 0), NormVars(vs)[..i])
      {
        ghost var v0, s0, l0 := vars, strings, locs;
        WriteVarArg(vs[i]);
        VarsNoted(old(order), old(placed), vs, i);
        GrownTrans(old(strings), s0, strings, old(locs), l0, locs);
        HoldsPrefix(vars, v0, old(vars));
        if Small(locs, strings) {
          HoldsSize(s0, strings, l0, locs);
          VarsMoved(v0, View(vars, 0), start, l0, s0, View(locs, 0), View(strings, 0), NormVars(vs)[..i]);
        }
        i := i + 1;
      }
      assert NormVars(vs)[..i] == NormVars(vs) && vs[..i] == vs;
    }

    method WriteLines(ls: seq<Line>) returns (start: nat)
      modifies this`lines
      ensures Holds(lines, 0, old(lines)) && start == |old(lines)| && |lines| == start + 8 * |ls|
      ensures LinesAt(lines, start, ls)
    {
      hide Holds, I32At, U32At, LineAt;
      start := |lines|;
      HoldsSelf(lines);
      var i := 0;
      while i < |ls|
        invariant 0 <= i <= |ls| && |lines| == start + 8 * i
        invariant Holds(lines, 0, old(lines)) && LinesAt(lines, start, ls[..i])
      {
        ghost var l0 := lines;
        var buf := LE(ToU32(ls[i].il), 4) + LE(ToU32(ls[i].compiled), 4);
        AppendHolds(lines, buf, []);
        LineRecord(lines + buf, |lines|, ls[i]);
        lines := lines + buf;
        HoldsPrefix(lines, l0, old(lines));
        LinesMoved(l0, View(lines, 0), start, ls[..i]);
        i := i + 1;
      }
      assert ls[..i] == ls;
    }

    ghost function Secs(): Sections
      reads this
    {
      Loose(lines, vars, locs, strings)
    }

    /** The variables, arguments and lines of a function. */
    method WriteLists(f: Function) returns (varStart: nat, argStart: nat, linesStart: nat)
      requires Valid()
      modifies this`offsets, this`strings, this`stringsEnd, this`order, this`cache, this`placed, this`locs, this`vars, this`lines
      ensures Valid() && Placed(old(Secs()), Secs())
      ensures varStart + 8 * |f.vars| <= |vars| && argStart + 8 * |f.args| <= |vars| && linesStart + 8 * |f.lines| <= |lines|
      ensures AllSmall(Secs()) ==> ListsAt(Secs(), f, varStart, argStart, linesStart)
      ensures |vars| == |old(vars)| + 8 * |f.vars| + 8 * |f.args| && |lines| == |old(lines)| + 8 * |f.lines|
      ensures order == NotedAll(NotedAll(old(order), VarsTexts(f.vars)), VarsTexts(f.args))
      ensures placed == SharedAll(SharedAll(old(placed), VarsLocs(f.vars)), VarsLocs(f.args))
    {
      hide LocAt, Holds, StringsOk, CacheOk, VarAt, LineAt, Placed, VarsAt, LinesAt;
      hide Interned, Cached, NotedAll, VarsTexts, SharedAll, VarsLocs;
      ghost var m0 := Secs();
      varStart := WriteVars(f.vars);
      ghost var m1 := Secs();
      PlacedBy(m0, m1);
      argStart := WriteVars(f.args);
      ghost var m2 := Secs();
      PlacedBy(m1, m2);
      linesStart := WriteLines(f.lines);
      HoldsSelf(vars);
      GrownSelf(strings, locs);
      PlacedBy(m2, Secs());
      PlacedTrans(m0, m1, m2);
      PlacedTrans(m0, m2, Secs());
      PlacedTrans(m1, m2, Secs());
      if AllSmall(Secs()) {
        SmallBefore(m1, Secs());
        SmallBefore(m2, Secs());
        VarsKept(m1, Secs(), varStart, NormVars(f.vars));
        VarsKept(m2, Secs(), argStart, NormVars(f.args));
      }
    }

    method WriteFunction(f: Function)
      requires Valid()
      modifies this
      ensures Valid() && Placed(old(Secs()), Secs()) && Holds(functions, 0, old(functions))
      ensures |functions| == |old(functions)| + 40
      ensures AllSmall(Secs()) ==> FunAt(functions, |old(functions)|, Secs(), NormFun(f))
      ensures |functions| + |lines| + |vars| == |old(functions)| + |old(lines)| + |old(vars)| + FunSize(f)
      ensures order == NotedAll(old(order), FunTexts(f)) && placed == SharedAll(old(placed), FunLocs(f))
    {
      hide LocAt, Holds, StringsOk, CacheOk, VarsAt, LinesAt, Words, TextAt, Placed, FunAt;
      hide Interned, Cached, Noted, NotedAll, VarsTexts, SharedAll, VarsLocs, FunTexts, FunLocs;
      FunNoted(order, placed, f);
      ghost var m0 := Secs();
      var varStart, argStart, linesStart := WriteLists(f);
      ghost var m1 := Secs();
      var fileId, nameId := WriteNames(f);
      PlacedTrans(m0, m1, Secs());
      var buf := Words([fileId, f.token, nameId, f.text, linesStart, |f.lines|, varStart, |f.vars|, argStart, |f.args|]);
      AppendHolds(functions, buf, []);
      if AllSmall(Secs()) {
        SmallBefore(m1, Secs());
        ListsKept(m1, Secs(), f, varStart, argStart, linesStart);
        FunRecordMeans(functions + buf, |functions|, Secs(), NormFun(f),
                       [fileId, f.token, nameId, f.text, linesStart, |f.lines|, varStart, |f.vars|, argStart, |f.args|]);
      }
      functions := functions + buf;
    }

    /** The two texts of a function's own record. */
    method WriteNames(f: Function) returns (fileId: nat, nameId: nat)
      requires Valid()
      modifies this`offsets, this`strings, this`stringsEnd, this`order
      ensures Valid() && Placed(old(Secs()), Secs()) && order == Noted(Noted(old(order), f.file), f.name)
      ensures TextAt(View(strings, 0), fileId, NormStr(f.file)) && fileId < |strings|
      ensures TextAt(View(strings, 0), nameId, NormStr(f.name)) && nameId < |strings|
    {
      hide LocAt, Holds, StringsOk, CacheOk, TextAt, Placed, Interned, Cached, Noted;
      HoldsSelf(vars);
      HoldsSelf(lines);
      GrownSelf(strings, locs);
      ghost var m0 := Secs();
      fileId := GetStringTableOffset(f.file);
      ghost var m1 := Secs();
      PlacedBy(m0, m1);
      nameId := GetStringTableOffset(f.name);
      PlacedBy(m1, Secs());
      PlacedTrans(m0, m1, Secs());
      TextKept(m1, Secs(), fileId, NormStr(f.file));
    }

    /** The whole file.  As long as offsets fit an int, it holds what a file can keep of the input. */
    method Write(f: File) returns (data: seq<Byte>)
      modifies this
      ensures |data| < 0x8000_0000 ==> Represents(data, NormFile(f))
      ensures |data| == FileSize(f) && Holds(data, |data| - |FileStrings(f)|, FileStrings(f))
    {
      hide LocAt, Holds, StringsOk, CacheOk, FunsAt, Words, TextAt, Represents, Placed;
      hide Interned, Cached, Noted, SharedAll, NotedAll, FunsTexts, FunsLocs, FunsSize, Section;
      Reset();
      var nameId := GetStringTableOffset(f.compiled);
      ghost var m0 := Secs();
      WriteFunctions(f.functions);
      FileNoted(f);
      WholeTables(order, strings, offsets, placed, |locs|, cache);
      TextKept(m0, Secs(), nameId, NormStr(f.compiled));
      var header := Words(Header(functions, Loose(lines, vars, locs, strings), |f.functions|, nameId));
      data := Join(header, functions, Loose(lines, vars, locs, strings));
      JoinHolds(header, functions, Loose(lines, vars, locs, strings));
      if |data| < 0x8000_0000 {
        JoinMeans(functions, Secs(), NormFile(f), nameId);
      }
    }

    method WriteFunctions(fs: seq<Function>)
      requires Valid() && functions == [] && lines == [] && vars == [] && placed == []
      modifies this
      ensures Valid() && Placed(old(Secs()), Secs()) && |functions| == 40 * |fs|
      ensures AllSmall(Secs()) ==> FunsAt(functions, 0, Secs(), NormFuns(fs))
      ensures order == NotedAll(old(order), FunsTexts(fs)) && placed == SharedAll([], FunsLocs(fs))
      ensures |functions| + |lines| + |vars| == FunsSize(fs)
    {
      hide LocAt, Holds, StringsOk, CacheOk, FunAt, Placed;
      hide Interned, Cached, Noted, SharedAll, NotedAll, FunsTexts, FunsLocs, FunTexts, FunLocs, FunsSize, FunSize;
      ghost var m0 := Secs();
      PlacedSelf(m0);
      NoneNoted(order, []);
      assert fs[..0] == [];
      var i := 0;
      while i < |fs|
        invariant 0 <= i <= |fs|
        invariant Valid() && Placed(m0, Secs())
        invariant |functions| == 40 * i
        invariant AllSmall(Secs()) ==> FunsAt(functions, 0, Secs(), NormFuns(fs)[..i])
        invariant order == NotedAll(old(order), FunsTexts(fs[..i])) && placed == SharedAll([], FunsLocs(fs[..i]))
        invariant |functions| + |lines| + |vars| == FunsSize(fs[..i])
      {
        ghost var m, b := Secs(), functions;
        WriteFunction(fs[i]);
        FunsNoted(old(order), [], fs, i);
        PlacedTrans(m0, m, Secs());
        if AllSmall(Secs()) {
          SmallBefore(m, Secs());
          FunsMoved(b, functions, m, Secs(), NormFuns(fs)[..i]);
        }
        i := i + 1;
      }
      assert NormFuns(fs)[..i] == NormFuns(fs) && fs[..i] == fs;
    }

    method Reset()
      modifies this
      ensures Valid() && strings == [0] && locs == [] && vars == [] && lines == [] && functions == []
      ensures order == [] && placed == []
    {
      offsets, strings, stringsEnd := map[], [0], 1;
      cache, locs, vars, lines, functions := map[], [], [], [], [];
      order, placed := [], [];
    }
  }

  lemma NoneNoted(order: seq<seq<Byte>>, placed: seq<Location>)
    ensures NotedAll(order, FunsTexts([])) == order && SharedAll(placed, FunsLocs([])) == placed && FunsSize([]) == 0
    ensures NotedAll(order, VarsTexts([])) == order && SharedAll(placed, VarsLocs([])) == placed
  {
  }

  lemma WholeTables(order: seq<seq<Byte>>, strings: seq<Byte>, offsets: map<seq<Byte>, nat>, placed: seq<Location>, size: nat,
                    cache: map<Location, nat>)
    requires Interned(order, strings, offsets) && Cached(placed, size, cache, order)
    ensures strings == Section(order) && size == Sizes(placed)
  {
  }

  /** Numbers of four bytes each, one after the other. */
  function Words(xs: seq<nat>): (b: seq<Byte>)
    ensures |b| == 4 * |xs|
  {
    if xs == [] then [] else LE(xs[0], 4) + Words(xs[1..])
  }

  lemma {:induction false} WordHeld(b: seq<Byte>, at: nat, xs: seq<nat>, j: nat)
    requires Holds(b, at, Words(xs)) && j < |xs| && xs[j] < 0x1_0000_0000
    ensures U32At(b, at + 4 * j) == xs[j] && I32At(b, at + 4 * j) == FromU32(xs[j])
    decreases j
  {
    hide LE, U32At, I32At;
    var r := Words(xs);
    if j == 0 {
      assert Holds(r, 0, LE(xs[0], 4));
      HoldsPart(b, at, r, 0, LE(xs[0], 4));
      NumHeld(b, at, xs[0]);
    } else {
      assert Holds(r, 4, Words(xs[1..]));
      HoldsPart(b, at, r, 4, Words(xs[1..]));
      WordHeld(b, at + 4, xs[1..], j - 1);
    }
  }

  lemma FunRecordMeans(b: seq<Byte>, at: nat, l: Sections, f: Function, xs: seq<nat>)
    requires |xs| == 10 && Holds(b, at, Words(xs))
    requires xs[0] < 0x8000_0000 && xs[2] < 0x8000_0000 && xs[4] < 0x8000_0000 && xs[6] < 0x8000_0000 && xs[8] < 0x8000_0000
    requires xs[1] == f.token && xs[3] == f.text
    requires xs[5] == |f.lines| < 0x8000_0000 && xs[7] == |f.vars| < 0x8000_0000 && xs[9] == |f.args| < 0x8000_0000
    requires TextAt(l.strings, xs[0], f.file) && TextAt(l.strings, xs[2], f.name)
    requires LinesAt(l.lines.b, l.lines.base + xs[4], f.lines)
    requires VarsAt(l.vars.b, l.vars.base + xs[6], l.locs, l.strings, f.vars)
    requires VarsAt(l.vars.b, l.vars.base + xs[8], l.locs, l.strings, f.args)
    ensures FunAt(b, at, l, f)
  {
    hide Words, U32At, I32At, TextAt, LinesAt, VarsAt;
    WordHeld(b, at, xs, 0);
    WordHeld(b, at, xs, 1);
    WordHeld(b, at, xs, 2);
    WordHeld(b, at, xs, 3);
    WordHeld(b, at, xs, 4);
    WordHeld(b, at, xs, 5);
    WordHeld(b, at, xs, 6);
    WordHeld(b, at, xs, 7);
    WordHeld(b, at, xs, 8);
    WordHeld(b, at, xs, 9);
  }

  ghost predicate AllSmall(l: Sections) {
    && |l.lines.b| < 0x8000_0000 && |l.vars.b| < 0x8000_0000
    && |l.locs.b| < 0x8000_0000 && |l.strings.b| < 0x8000_0000
  }

  /** Earlier functions keep their meaning while the sections grow. */
  lemma FunsMoved(b: seq<Byte>, b': seq<Byte>, l: Sections, l': Sections, fs: seq<Function>)
    requires l == Loose(l.lines.b, l.vars.b, l.locs.b, l.strings.b) && Placed(l, l') && Holds(b', 0, b)
    requires FunsAt(b, 0, l, fs)
    ensures FunsAt(b', 0, l', fs)
  {
    hide FunAt, Placed;
    forall k | 0 <= k < |fs| ensures FunAt(b', 0 + 40 * k, l', fs[k]) {
      assert FunAt(b, 0 + 40 * k, l, fs[k]);
      FunMoved(b, 40 * k, View(b', 0), l, l', fs[k]);
    }
  }

  /** The lists of a function, as kept, stand at the given starts. */
  ghost predicate ListsAt(l: Sections, f: Function, varStart: nat, argStart: nat, linesStart: nat) {
    && LinesAt(l.lines.b, l.lines.base + linesStart, f.lines)
    && VarsAt(l.vars.b, l.vars.base + varStart, l.locs, l.strings, NormVars(f.vars))
    && VarsAt(l.vars.b, l.vars.base + argStart, l.locs, l.strings, NormVars(f.args))
  }

  lemma VarsKept(l: Sections, l': Sections, start: nat, vs: seq<VarArg>)
    requires l == Loose(l.lines.b, l.vars.b, l.locs.b, l.strings.b) && l' == Loose(l'.lines.b, l'.vars.b, l'.locs.b, l'.strings.b)
    requires Placed(l, l') && VarsAt(l.vars.b, start, l.locs, l.strings, vs)
    ensures VarsAt(l'.vars.b, start, l'.locs, l'.strings, vs)
  {
    hide VarsAt;
    VarsMoved(l.vars.b, l'.vars, start, l.locs.b, l.strings.b, l'.locs, l'.strings, vs);
  }

  lemma ListsKept(l: Sections, l': Sections, f: Function, varStart: nat, argStart: nat, linesStart: nat)
    requires l == Loose(l.lines.b, l.vars.b, l.locs.b, l.strings.b) && l' == Loose(l'.lines.b, l'.vars.b, l'.locs.b, l'.strings.b)
    requires Placed(l, l') && ListsAt(l, f, varStart, argStart, linesStart)
    ensures ListsAt(l', f, varStart, argStart, linesStart)
  {
    hide VarsAt, LinesAt;
    VarsKept(l, l', varStart, NormVars(f.vars));
    VarsKept(l, l', argStart, NormVars(f.args));
    LinesMoved(l.lines.b, l'.lines, linesStart, f.lines);
  }

  lemma PlacedBy(l: Sections, l': Sections)
    requires l == Loose(l.lines.b, l.vars.b, l.locs.b, l.strings.b) && l' == Loose(l'.lines.b, l'.vars.b, l'.locs.b, l'.strings.b)
    requires Holds(l'.vars.b, 0, l.vars.b) && Grown(l.strings.b, l'.strings.b, l.locs.b, l'.locs.b)
    requires Holds(l'.lines.b, 0, l.lines.b) || l'.lines.b == l.lines.b
    ensures Placed(l, l')
  {
    HoldsSelf(l.lines.b);
  }

  lemma PlacedSelf(l: Sections)
    requires l == Loose(l.lines.b, l.vars.b, l.locs.b, l.strings.b)
    ensures Placed(l, l)
  {
    HoldsSelf(l.lines.b);
    HoldsSelf(l.vars.b);
    HoldsSelf(l.locs.b);
    HoldsSelf(l.strings.b);
  }

  lemma PlacedTrans(l0: Sections, l1: Sections, l2: Sections)
    requires l1 == Loose(l1.lines.b, l1.vars.b, l1.locs.b, l1.strings.b)
    requires l2 == Loose(l2.lines.b, l2.vars.b, l2.locs.b, l2.strings.b)
    requires Placed(l0, l1) && Placed(l1, l2)
    ensures Placed(l0, l2)
  {
    HoldsPrefix(l2.lines.b, l1.lines.b, l0.lines.b);
    HoldsPrefix(l2.vars.b, l1.vars.b, l0.vars.b);
    HoldsPrefix(l2.locs.b, l1.locs.b, l0.locs.b);
    HoldsPrefix(l2.strings.b, l1.strings.b, l0.strings.b);
  }

  lemma TextKept(l: Sections, l': Sections, id: nat, s: Str)
    requires l == Loose(l.lines.b, l.vars.b, l.locs.b, l.strings.b) && l' == Loose(l'.lines.b, l'.vars.b, l'.locs.b, l'.strings.b)
    requires Placed(l, l') && TextAt(l.strings, id, s) && id < |l.strings.b|
    ensures TextAt(l'.strings, id, s) && id < |l'.strings.b|
  {
    TextMoved(l.strings.b, l'.strings, id, s);
  }

  lemma SmallBefore(l: Sections, l': Sections)
    requires Placed(l, l') && l' == Loose(l'.lines.b, l'.vars.b, l'.locs.b, l'.strings.b) && AllSmall(l')
    ensures AllSmall(l)
  {
  }

  /** The header and the sections in file order. */
  function Join(header: seq<Byte>, functions: seq<Byte>, l: Sections): seq<Byte> {
    header + functions + l.lines.b + l.vars.b + l.locs.b + l.strings.b
  }

  /** The nine header words: magic, version, five section offsets, function count, name. */
  function Header(functions: seq<Byte>, l: Sections, count: nat, nameId: nat): seq<nat> {
    var fo := 36;
    var lo := fo + |functions|;
    var vo := lo + |l.lines.b|;
    var co := vo + |l.vars.b|;
    var so := co + |l.locs.b|;
    [0x42445954, 1, fo, lo, vo, so, co, count, nameId]
  }

  lemma JoinHolds(header: seq<Byte>, functions: seq<Byte>, l: Sections)
    ensures var d := Join(header, functions, l);
            var lo := |header| + |functions|;
            var vo := lo + |l.lines.b|;
            var co := vo + |l.vars.b|;
            && Holds(d, 0, header) && Holds(d, |header|, functions) && Holds(d, lo, l.lines.b)
            && Holds(d, vo, l.vars.b) && Holds(d, co, l.locs.b) && Holds(d, co + |l.locs.b|, l.strings.b)
  {
    var d := Join(header, functions, l);
    var a := header + functions;
    var b := a + l.lines.b;
    var c := b + l.vars.b;
    var e := c + l.locs.b;
    hide Holds;
    AppendHolds(header, functions, []);
    AppendHolds(a, l.lines.b, []);
    AppendHolds(b, l.vars.b, []);
    AppendHolds(c, l.locs.b, []);
    AppendHolds(e, l.strings.b, []);
    HoldsPrefix(d, e, c);
    HoldsPrefix(d, c, b);
    HoldsPrefix(d, b, a);
    HoldsPrefix(d, a, header);
    HoldsPart(d, 0, a, |header|, functions);
    HoldsPart(d, 0, b, |a|, l.lines.b);
    HoldsPart(d, 0, c, |b|, l.vars.b);
    HoldsPart(d, 0, e, |c|, l.locs.b);
  }

  /** Joined sections behind their header hold the file. */
  lemma JoinMeans(functions: seq<Byte>, l: Sections, f: File, nameId: nat)
    requires l == Loose(l.lines.b, l.vars.b, l.locs.b, l.strings.b)
    requires |functions| == 40 * |f.functions| && FunsAt(functions, 0, l, f.functions)
    requires TextAt(l.strings, nameId, f.compiled) && nameId < |l.strings.b|
    requires |Join(Words(Header(functions, l, |f.functions|, nameId)), functions, l)| < 0x8000_0000
    ensures Represents(Join(Words(Header(functions, l, |f.functions|, nameId)), functions, l), f)
  {
    hide Words, U32At, I32At, TextAt, FunAt, Holds;
    var h := Header(functions, l, |f.functions|, nameId);
    var d := Join(Words(h), functions, l);
    JoinHolds(Words(h), functions, l);
    forall j | 0 <= j < 9 ensures U32At(d, 0 + 4 * j) == h[j] && I32At(d, 0 + 4 * j) == FromU32(h[j]) {
      WordHeld(d, 0, h, j);
    }
    HeaderNumbers(d, h);
    var s := SectionsOf(d);
    TextMoved(l.strings.b, s.strings, nameId, f.compiled);
    forall k | 0 <= k < |f.functions| ensures FunAt(d, I32At(d, 8) + 40 * k, s, f.functions[k]) {
      assert FunAt(functions, 0 + 40 * k, l, f.functions[k]);
      FunMoved(functions, 40 * k, View(d, 36), l, s, f.functions[k]);
    }
  }

  lemma HeaderNumbers(d: seq<Byte>, h: seq<nat>)
    requires |h| == 9 && h[0] == 0x42445954 && forall j :: 1 <= j < 9 ==> h[j] < 0x8000_0000
    requires forall j :: 0 <= j < 9 ==> U32At(d, 0 + 4 * j) == h[j] && I32At(d, 0 + 4 * j) == FromU32(h[j])
    ensures U32At(d, 0) == h[0] && U32At(d, 4) == h[1] && I32At(d, 8) == h[2] && I32At(d, 12) == h[3]
    ensures I32At(d, 16) == h[4] && I32At(d, 20) == h[5] && I32At(d, 24) == h[6] && I32At(d, 28) == h[7] && I32At(d, 32) == h[8]
  {
    hide U32At, I32At;
    assert U32At(d, 0 + 4 * 0) == h[0] && U32At(d, 0 + 4 * 1) == h[1];
    assert I32At(d, 0 + 4 * 2) == h[2] && I32At(d, 0 + 4 * 3) == h[3] && I32At(d, 0 + 4 * 4) == h[4];
    assert I32At(d, 0 + 4 * 5) == h[5] && I32At(d, 0 + 4 * 6) == h[6] && I32At(d, 0 + 4 * 7) == h[7];
    assert I32At(d, 0 + 4 * 8) == h[8];
  }

  /** Sections only grow at the end. */
  ghost predicate Grown(s: seq<Byte>, s': seq<Byte>, l: seq<Byte>, l': seq<Byte>) {
    Holds(s', 0, s) && Holds(l', 0, l)
  }

  lemma GrownSelf(s: seq<Byte>, l: seq<Byte>)
    ensures Grown(s, s, l, l)
  {
    HoldsSelf(s);
    HoldsSelf(l);
  }

  lemma GrownTrans(s0: seq<Byte>, s1: seq<Byte>, s2: seq<Byte>, l0: seq<Byte>, l1: seq<Byte>, l2: seq<Byte>)
    requires Grown(s0, s1, l0, l1) && Grown(s1, s2, l1, l2)
    ensures Grown(s0, s2, l0, l2)
  {
    HoldsPrefix(s2, s1, s0);
    HoldsPrefix(l2, l1, l0);
  }

  lemma HoldsSize(s: seq<Byte>, s': seq<Byte>, l: seq<Byte>, l': seq<Byte>)
    requires Grown(s, s', l, l')
    ensures |s| <= |s'| && |l| <= |l'|
  {
  }

  lemma PairRecord(b: seq<Byte>, at: nat, x: nat, y: nat)
    requires Holds(b, at, LE(x, 4) + LE(y, 4)) && x < 0x8000_0000 && y < 0x8000_0000
    ensures I32At(b, at) == x && I32At(b, at + 4) == y
  {
    hide LE, I32At, U32At;
    var r := LE(x, 4) + LE(y, 4);
    assert Holds(r, 0, LE(x, 4)) && Holds(r, 4, LE(y, 4));
    HoldsPart(b, at, r, 0, LE(x, 4));
    HoldsPart(b, at, r, 4, LE(y, 4));
    NumHeld(b, at, x);
    NumHeld(b, at + 4, y);
  }

  lemma LineRecord(b: seq<Byte>, at: nat, l: Line)
    requires Holds(b, at, LE(ToU32(l.il), 4) + LE(ToU32(l.compiled), 4))
    ensures LineAt(b, at, l)
  {
    hide LE, I32At, U32At, ToU32, FromU32;
    var x, y := ToU32(l.il), ToU32(l.compiled);
    var r := LE(x, 4) + LE(y, 4);
    assert Holds(r, 0, LE(x, 4)) && Holds(r, 4, LE(y, 4));
    HoldsPart(b, at, r, 0, LE(x, 4));
    HoldsPart(b, at, r, 4, LE(y, 4));
    NumHeld(b, at, x);
    NumHeld(b, at + 4, y);
    SignRoundTrip(l.il);
    SignRoundTrip(l.compiled);
  }

  lemma HoldsPrefix(c: seq<Byte>, b: seq<Byte>, a: seq<Byte>)
    requires Holds(c, 0, b) && Holds(b, 0, a)
    ensures Holds(c, 0, a)
  {
    HoldsPart(c, 0, b, 0, a);
  }
}
