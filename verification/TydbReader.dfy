/** The tydb reader (tydbfile/Reader.cs): a stream with a position that seeks and restores. */
module TydbReader {
  import opened Bytes
  import opened TydbFormat

  datatype Error = BadMagic | BadVersion | BadLocation | BadSeek | Endless

  datatype Result<T> = Ok(value: T) | Err(error: Error)

  class Reader {
    const data: seq<Byte>
    var pos: nat
    var stringsOffset: int     // reader_strings_offset

    constructor (data: seq<Byte>)
      ensures this.data == data && pos == 0
    {
      this.data := data;
      pos, stringsOffset := 0, 0;
    }

    /** Reading stops at the end of the stream. */
    function After(k: nat): nat
      reads this`pos
    {
      if pos + k <= |data| then pos + k else if pos > |data| then pos else |data|
    }

    method ReadUInt() returns (v: U32)
      modifies this`pos
      ensures v == U32At(data, old(pos)) && pos == old(After(4))
    {
      v := U32At(data, pos);
      pos := After(4);
    }

    method ReadInt() returns (v: I32)
      modifies this`pos
      ensures v == I32At(data, old(pos)) && pos == old(After(4))
    {
      v := I32At(data, pos);
      pos := After(4);
    }

    method ReadULong() returns (v: U64)
      modifies this`pos
      ensures v == U64At(data, old(pos)) && pos == old(After(8))
    {
      v := U64At(data, pos);
      pos := After(8);
    }

    method ReadByte() returns (v: I32)
      modifies this`pos
      ensures pos == old(After(1)) && v == if old(pos) < |data| then data[old(pos)] else -1
    {
      v := if pos < |data| then data[pos] else -1;
      pos := After(1);
    }

    /** The bytes from an id of the string section up to a NUL; the position is restored. */
    method GetString(id: int, ghost s: Str) returns (r: Result<Str>)
      modifies this`pos
      ensures pos == old(pos)
      ensures stringsOffset >= 0 && TextAt(View(data, stringsOffset), id, s) ==> r == Ok(s)
    {
      var saved := pos;
      if stringsOffset + id < 0 {
        return Err(BadSeek);
      }
      pos := stringsOffset + id;
      var start := pos;
      var buf: seq<Byte> := [];
      while pos < |data| && data[pos] != 0
        invariant pos == start + |buf| && (buf != [] ==> pos <= |data|)
        invariant buf == [] || (data[start..pos] == buf && 0 !in buf)
        decreases |data| - pos
      {
        buf := buf + [data[pos]];
        pos := pos + 1;
      }
      if pos >= |data| {
        // ReadByte gives -1 from here on, which is never a NUL byte
        r := Err(Endless);
      } else {
        r := Ok(Text(buf));
      }
      if stringsOffset >= 0 && TextAt(View(data, stringsOffset), id, s) {
        FirstNul(data, start, buf, s.bytes);
      }
      pos := saved;
    }

    method ReadString(ghost s: Str) returns (r: Result<Str>)
      modifies this`pos
      ensures pos == old(After(4))
      ensures stringsOffset >= 0 && TextAt(View(data, stringsOffset), I32At(data, old(pos)), s) ==> r == Ok(s)
    {
      var id := ReadInt();
      r := GetString(id, s);
    }

    /**
      Follows nested locations up to a depth.  An id that holds a location is read back, and
      no deeper than the id itself: nested ids decrease.
     */
    method ReadLocation(locsOffset: int, id: int, depth: nat, ghost loc: Location) returns (r: Result<Location>)
      modifies this`pos
      ensures pos == old(pos)
      ensures locsOffset >= 0 && stringsOffset >= 0 && depth > id ==>
        (LocAt(View(data, locsOffset), View(data, stringsOffset), id, loc) ==> r == Ok(loc))
      decreases depth
    {
      hide I32At, U32At, U64At, LowI32, TextAt;
      var saved := pos;
      if locsOffset + id < 0 {
        return Err(BadSeek);
      }
      if depth == 0 {
        return Err(Endless);
      }
      pos := locsOffset + id;
      var kind := ReadInt();
      if kind == 0 {
        var name := ReadString(if loc.Register? then loc.name else Null);
        var len := ReadByte();
        r := if name.Ok? then Ok(Register(name.value, len)) else Err(name.error);
      } else if kind == 1 {
        var addr := ReadULong();
        var len := ReadByte();
        r := Ok(Memory(addr, len));
      } else if kind == 2 {
        var id2 := ReadInt();
        var off := ReadULong();
        var len := ReadByte();
        var inner := ReadLocation(locsOffset, id2, depth - 1, if loc.ContentsOf? then loc.inner else loc);
        r := if inner.Ok? then Ok(ContentsOf(inner.value, LowI32(off), len)) else inner;
      } else {
        r := Err(BadLocation);
      }
      pos := saved;
    }

    method ReadLines(linesOffset: int, start: int, count: int, ghost ls: seq<Line>) returns (r: Result<seq<Line>>)
      modifies this`pos
      ensures linesOffset >= 0 && start >= 0 && count == |ls| && LinesAt(data, linesOffset + start, ls) ==> r == Ok(ls)
    {
      hide I32At;
      var out: seq<Line> := [];
      var j := 0;
      while j < count
        invariant 0 <= j && (j <= count || count < 0)
        invariant linesOffset >= 0 && start >= 0 && count == |ls| && LinesAt(data, linesOffset + start, ls) ==> out == ls[..j]
      {
        if linesOffset + start + j * 8 < 0 {
          return Err(BadSeek);
        }
        pos := linesOffset + start + j * 8;
        var il := ReadInt();
        var compiled := ReadInt();
        out := out + [Line(il, compiled)];
        assert linesOffset >= 0 && start >= 0 && count == |ls| && LinesAt(data, linesOffset + start, ls) ==>
          LineAt(data, linesOffset + start + 8 * j, ls[j]);
        j := j + 1;
      }
      assert ls[..|ls|] == ls;
      r := Ok(out);
    }

    method ReadVars(varsOffset: int, start: int, count: int, locsOffset: int, ghost vs: seq<VarArg>)
      returns (r: Result<seq<VarArg>>)
      modifies this`pos
      ensures varsOffset >= 0 && start >= 0 && count == |vs| && locsOffset >= 0 && stringsOffset >= 0 ==>
        (VarsAt(data, varsOffset + start, View(data, locsOffset), View(data, stringsOffset), vs) ==> r == Ok(vs))
    {
      hide I32At, TextAt, LocAt;
      ghost var good := varsOffset >= 0 && start >= 0 && count == |vs| && locsOffset >= 0 && stringsOffset >= 0 &&
        VarsAt(data, varsOffset + start, View(data, locsOffset), View(data, stringsOffset), vs);
      var out: seq<VarArg> := [];
      var j := 0;
      while j < count
        invariant 0 <= j && (j <= count || count < 0)
        invariant good ==> out == vs[..j]
      {
        if varsOffset + start + j * 8 < 0 {
          return Err(BadSeek);
        }
        pos := varsOffset + start + j * 8;
        ghost var v := if j < |vs| then vs[j] else VarArg(Null, Memory(0, 0));
        if good {
          assert VarAt(data, varsOffset + start + 8 * j, View(data, locsOffset), View(data, stringsOffset), v);
          IdInside(data, locsOffset, stringsOffset, I32At(data, pos + 4), v.location);
        }
        var name := ReadString(v.name);
        if name.Err? {
          return Err(name.error);
        }
        var id := ReadInt();
        var loc := ReadLocation(locsOffset, id, |data| + 1, v.location);
        if loc.Err? {
          return Err(loc.error);
        }
        out := out + [VarArg(name.value, loc.value)];
        j := j + 1;
      }
      assert vs[..|vs|] == vs;
      r := Ok(out);
    }

    /** A function record at the current position, and the lists it refers to. */
    method ReadFunction(linesOffset: int, varsOffset: int, locsOffset: int, ghost f: Function) returns (r: Result<Function>)
      modifies this`pos
      ensures linesOffset >= 0 && varsOffset >= 0 && locsOffset >= 0 && stringsOffset >= 0 ==>
        (FunAt(data, old(pos), Sections(View(data, linesOffset), View(data, varsOffset), View(data, locsOffset), View(data, stringsOffset)), f)
         ==> r == Ok(f))
    {
      hide I32At, U32At, TextAt, VarsAt, LinesAt;
      var file := ReadString(f.file);
      var token := ReadUInt();
      var name := ReadString(f.name);
      var text := ReadUInt();
      var lineStart := ReadInt();
      var lineCount := ReadInt();
      var varStart := ReadInt();
      var varCount := ReadInt();
      var argStart := ReadInt();
      var argCount := ReadInt();
      var lines := ReadLines(linesOffset, lineStart, lineCount, f.lines);
      var vars := ReadVars(varsOffset, varStart, varCount, locsOffset, f.vars);
      var args := ReadVars(varsOffset, argStart, argCount, locsOffset, f.args);
      if file.Err? { return Err(file.error); }
      if name.Err? { return Err(name.error); }
      if lines.Err? { return Err(lines.error); }
      if vars.Err? { return Err(vars.error); }
      if args.Err? { return Err(args.error); }
      r := Ok(Function(file.value, token, name.value, text, lines.value, vars.value, args.value));
    }

    /** Reads a whole file; one that holds `f` reads as `f`. */
    method Read(ghost f: File) returns (r: Result<File>)
      requires pos == 0
      modifies this`pos, this`stringsOffset
      ensures Represents(data, f) ==> r == Ok(f)
      ensures U32At(data, 0) != 0x42445954 ==> r == Err(BadMagic)
      ensures |data| >= 8 && U32At(data, 0) == 0x42445954 && U32At(data, 4) != 1 ==> r == Err(BadVersion)
    {
      hide I32At, U32At, TextAt, FunAt;
      ghost var good := Represents(data, f);
      var magic := ReadUInt();
      if magic != 0x42445954 {
        return Err(BadMagic);
      }
      var version := ReadUInt();
      if version != 1 {
        return Err(BadVersion);
      }
      var funcsOffset := ReadInt();
      var linesOffset := ReadInt();
      var varsOffset := ReadInt();
      stringsOffset := ReadInt();
      var locsOffset := ReadInt();
      var count := ReadInt();
      var compiled := ReadString(f.compiled);
      if compiled.Err? {
        return Err(compiled.error);
      }
      if funcsOffset < 0 {
        return Err(BadSeek);
      }
      pos := funcsOffset;
      ghost var s := if good then SectionsOf(data) else Sections(View([], 0), View([], 0), View([], 0), View([], 0));
      var functions: seq<Function> := [];
      var i := 0;
      while i < count
        invariant 0 <= i && (i <= count || count < 0) && pos == funcsOffset + 40 * i
        invariant good ==> functions == f.functions[..i]
        invariant good ==> stringsOffset == I32At(data, 20)
      {
        var start := pos;
        ghost var g := if i < |f.functions| then f.functions[i] else Function(Null, 0, Null, 0, [], [], []);
        assert good ==> FunAt(data, funcsOffset + 40 * i, s, g);
        var fun := ReadFunction(linesOffset, varsOffset, locsOffset, g);
        if fun.Err? {
          return Err(fun.error);
        }
        functions := functions + [fun.value];
        pos := start + 40;
        i := i + 1;
      }
      assert f.functions[..|f.functions|] == f.functions;
      r := Ok(File(compiled.value, functions));
    }
  }

  /** The id of a location lies inside the data. */
  lemma IdInside(data: seq<Byte>, locsOffset: nat, stringsOffset: nat, id: int, loc: Location)
    requires LocAt(View(data, locsOffset), View(data, stringsOffset), id, loc)
    ensures 0 <= id < |data|
  {
  }

  /** Two readings up to the first NUL are the same. */
  lemma {:induction false} FirstNul(data: seq<Byte>, at: nat, buf: seq<Byte>, s: seq<Byte>)
    requires 0 !in s && Holds(data, at, s + [0])
    requires buf == [] || (at + |buf| <= |data| && data[at..at + |buf|] == buf && 0 !in buf)
    requires at + |buf| >= |data| || data[at + |buf|] == 0
    ensures buf == s && at + |buf| < |data|
  {
    assert forall i :: 0 <= i < |s| ==> data[at + i] == (s + [0])[i] == s[i];
    assert data[at + |s|] == (s + [0])[|s|] == 0;
    assert forall i :: 0 <= i < |s| ==> s[i] in s;
    assert forall i :: 0 <= i < |buf| ==> buf[i] == data[at..at + |buf|][i] && buf[i] in buf;
  }

  // ------------------------------------------------ a byte sequence holds at most one file

  lemma {:induction false} TextUnique(sv: View, id: int, s: Str, t: Str)
    requires TextAt(sv, id, s) && TextAt(sv, id, t)
    ensures s == t
  {
    HeldBytes(sv.b, sv.base + id, s.bytes);
    FirstNul(sv.b, sv.base + id, s.bytes, t.bytes);
  }

  lemma HeldBytes(b: seq<Byte>, i: nat, s: seq<Byte>)
    requires Holds(b, i, s + [0])
    ensures i + |s| < |b| && b[i..i + |s|] == s && b[i + |s|] == 0
  {
    var t := s + [0];
    assert b[i..i + |s|] == b[i..i + |t|][..|s|];
    assert t[..|s|] == s;
    assert b[i + |s|] == b[i..i + |t|][|s|];
  }

  lemma {:induction false} LocUnique(cv: View, sv: View, id: int, l: Location, m: Location)
    requires LocAt(cv, sv, id, l) && LocAt(cv, sv, id, m)
    ensures l == m
  {
    hide I32At, U64At, LowI32, TextAt;
    match l
    case Register(name, _) => TextUnique(sv, I32At(cv.b, cv.base + id + 4), name, m.name);
    case Memory(_, _) =>
    case ContentsOf(inner, _, _) => LocUnique(cv, sv, I32At(cv.b, cv.base + id + 4), inner, m.inner);
  }

  lemma VarsUnique(b: seq<Byte>, at: nat, cv: View, sv: View, vs: seq<VarArg>, ws: seq<VarArg>)
    requires |vs| == |ws| && VarsAt(b, at, cv, sv, vs) && VarsAt(b, at, cv, sv, ws)
    ensures vs == ws
  {
    hide I32At, TextAt, LocAt;
    forall j | 0 <= j < |vs| ensures vs[j] == ws[j] {
      assert VarAt(b, at + 8 * j, cv, sv, vs[j]) && VarAt(b, at + 8 * j, cv, sv, ws[j]);
      TextUnique(sv, I32At(b, at + 8 * j), vs[j].name, ws[j].name);
      LocUnique(cv, sv, I32At(b, at + 8 * j + 4), vs[j].location, ws[j].location);
    }
  }

  lemma FunUnique(b: seq<Byte>, at: nat, s: Sections, f: Function, g: Function)
    requires FunAt(b, at, s, f) && FunAt(b, at, s, g)
    ensures f == g
  {
    hide I32At, U32At, TextAt, VarsAt;
    TextUnique(s.strings, I32At(b, at), f.file, g.file);
    TextUnique(s.strings, I32At(b, at + 8), f.name, g.name);
    LinesUnique(s.lines.b, s.lines.base + I32At(b, at + 16), f.lines, g.lines);
    VarsUnique(s.vars.b, s.vars.base + I32At(b, at + 24), s.locs, s.strings, f.vars, g.vars);
    VarsUnique(s.vars.b, s.vars.base + I32At(b, at + 32), s.locs, s.strings, f.args, g.args);
  }

  lemma LinesUnique(b: seq<Byte>, at: nat, ls: seq<Line>, ms: seq<Line>)
    requires |ls| == |ms| && LinesAt(b, at, ls) && LinesAt(b, at, ms)
    ensures ls == ms
  {
    forall j | 0 <= j < |ls| ensures ls[j] == ms[j] {
      assert LineAt(b, at + 8 * j, ls[j]) && LineAt(b, at + 8 * j, ms[j]);
    }
  }

  /** The format is unambiguous. */
  lemma FileUnique(data: seq<Byte>, f: File, g: File)
    requires Represents(data, f) && Represents(data, g)
    ensures f == g
  {
    hide I32At, U32At, TextAt, FunAt;
    var s := SectionsOf(data);
    TextUnique(s.strings, I32At(data, 32), f.compiled, g.compiled);
    forall k | 0 <= k < |f.functions| ensures f.functions[k] == g.functions[k] {
      assert FunAt(data, I32At(data, 8) + 40 * k, s, f.functions[k]) && FunAt(data, I32At(data, 8) + 40 * k, s, g.functions[k]);
      FunUnique(data, I32At(data, 8) + 40 * k, s, f.functions[k], g.functions[k]);
    }
  }
}
