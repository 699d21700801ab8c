/**
  The two tables a tydb file shares between its records (tydbfile/Writer.cs): the string section, one
  NUL and then each text once, and the location section, each location once after the one it refers to.
 */
module TydbTables {
  import opened Bytes
  import opened Options
  import opened TydbFormat

  lemma AddedOnce<T>(s: seq<T>, x: T)
    requires NoDup(s) && x !in s
    ensures NoDup(s + [x]) && (s + [x])[..|s|] == s && forall y :: y in s + [x] <==> y in s || y == x
  {
  }

  // ------------------------------------------------------------ texts

  /** The texts seen so far, in the order they were first seen. */
  function Noted(order: seq<seq<Byte>>, s: Str): seq<seq<Byte>> {
    if s.Null? || s.bytes in order then order else order + [s.bytes]
  }

  function NotedAll(order: seq<seq<Byte>>, ts: seq<Str>): seq<seq<Byte>> {
    if ts == [] then order else Noted(NotedAll(order, ts[..|ts| - 1]), ts[|ts| - 1])
  }

  lemma {:induction false} NotedOn(order: seq<seq<Byte>>, a: seq<Str>, b: seq<Str>)
    ensures NotedAll(order, a + b) == NotedAll(NotedAll(order, a), b)
    decreases |b|
  {
    if b == [] {
      assert a + b == a;
    } else {
      var n := |b| - 1;
      assert (a + b)[..|a| + n] == a + b[..n];
      NotedOn(order, a, b[..n]);
    }
  }

  lemma TextNoted(order: seq<seq<Byte>>, s: Str)
    ensures s.Text? ==> s.bytes in Noted(order, s)
    ensures Noted(Noted(order, s), s) == Noted(order, s)
  {
  }

  lemma NotedOne(order: seq<seq<Byte>>, s: Str)
    ensures NotedAll(order, [s]) == Noted(order, s)
  {
    assert [s][..0] == [];
  }

  /** Each text is noted once, and none is noted that was not seen. */
  lemma {:induction false} EachTextOnce(ts: seq<Str>)
    ensures NoDup(NotedAll([], ts)) && forall t :: t in NotedAll([], ts) <==> Text(t) in ts
  {
    if ts != [] {
      var n := |ts| - 1;
      EachTextOnce(ts[..n]);
      assert ts == ts[..n] + [ts[n]];
    }
  }

  /** One NUL, then each text with a NUL after it. */
  function Section(order: seq<seq<Byte>>): (b: seq<Byte>)
    ensures |b| > 0
  {
    if order == [] then [0] else Section(order[..|order| - 1]) + order[|order| - 1] + [0]
  }

  lemma SectionOne(order: seq<seq<Byte>>, t: seq<Byte>)
    ensures Section(order + [t]) == Section(order) + t + [0]
  {
    assert (order + [t])[..|order|] == order;
  }

  /** Each text's offset is where the section with the texts before it ends. */
  ghost predicate TextsAt(order: seq<seq<Byte>>, offsets: map<seq<Byte>, nat>) {
    order != [] ==>
      var n := |order| - 1;
      order[n] in offsets && offsets[order[n]] == |Section(order[..n])| && TextsAt(order[..n], offsets)
  }

  /** The string section and the dictionary of offsets hold just the texts noted. */
  ghost predicate Interned(order: seq<seq<Byte>>, strings: seq<Byte>, offsets: map<seq<Byte>, nat>) {
    && NoDup(order) && strings == Section(order) && TextsAt(order, offsets)
    && (forall t :: t in offsets <==> t in order)
  }

  lemma {:induction false} TextsStay(order: seq<seq<Byte>>, offsets: map<seq<Byte>, nat>, t: seq<Byte>, x: nat)
    requires TextsAt(order, offsets) && t !in order
    ensures TextsAt(order, offsets[t := x])
  {
    hide Section;
    if order != [] {
      TextsStay(order[..|order| - 1], offsets, t, x);
    }
  }

  lemma InternOne(order: seq<seq<Byte>>, strings: seq<Byte>, offsets: map<seq<Byte>, nat>, t: seq<Byte>)
    requires Interned(order, strings, offsets) && t !in offsets
    ensures Noted(order, Text(t)) == order + [t]
    ensures Interned(order + [t], strings + t + [0], offsets[t := |strings|])
  {
    hide NoDup, Section;
    AddedOnce(order, t);
    SectionOne(order, t);
    TextsStay(order, offsets, t, |strings|);
  }

  lemma {:induction false} TextsBefore(order: seq<seq<Byte>>, offsets: map<seq<Byte>, nat>, t: seq<Byte>)
    requires TextsAt(order, offsets) && t in order
    ensures t in offsets && offsets[t] < |Section(order)|
  {
    var n := |order| - 1;
    if t != order[n] {
      assert t in order[..n];
      TextsBefore(order[..n], offsets, t);
    }
  }

  /** Different texts have different offsets. */
  lemma {:induction false} OffsetsApart(order: seq<seq<Byte>>, offsets: map<seq<Byte>, nat>, s: seq<Byte>, t: seq<Byte>)
    requires TextsAt(order, offsets) && s in order && t in order && s != t
    ensures s in offsets && t in offsets && offsets[s] != offsets[t]
  {
    hide Section;
    var n := |order| - 1;
    var init := order[..n];
    assert (s != order[n] ==> s in init) && (t != order[n] ==> t in init);
    if s == order[n] {
      TextsBefore(init, offsets, t);
    } else if t == order[n] {
      TextsBefore(init, offsets, s);
    } else {
      OffsetsApart(init, offsets, s, t);
    }
  }

  // ------------------------------------------------------------ locations

  /** The one text a location holds, if any. */
  function LocText(l: Location): Str {
    match l
    case Register(name, _) => name
    case Memory(_, _) => Null
    case ContentsOf(inner, _, _) => LocText(inner)
  }

  function LocSize(l: Location): nat {
    match l case Register(_, _) => 9 case Memory(_, _) => 13 case ContentsOf(_, _, _) => 17
  }

  function Nesting(l: Location): nat {
    if l.ContentsOf? then 1 + Nesting(l.inner) else 0
  }

  /** The locations written so far, each after the one it refers to. */
  function Shared(placed: seq<Location>, l: Location): seq<Location>
    decreases l
  {
    if l in placed then placed
    else (if l.ContentsOf? then Shared(placed, l.inner) else placed) + [l]
  }

  function SharedAll(placed: seq<Location>, ls: seq<Location>): seq<Location> {
    if ls == [] then placed else Shared(SharedAll(placed, ls[..|ls| - 1]), ls[|ls| - 1])
  }

  lemma {:induction false} SharedOn(placed: seq<Location>, a: seq<Location>, b: seq<Location>)
    ensures SharedAll(placed, a + b) == SharedAll(SharedAll(placed, a), b)
    decreases |b|
  {
    if b == [] {
      assert a + b == a;
    } else {
      var n := |b| - 1;
      assert (a + b)[..|a| + n] == a + b[..n];
      SharedOn(placed, a, b[..n]);
    }
  }

  lemma SharedOne(placed: seq<Location>, l: Location)
    ensures SharedAll(placed, [l]) == Shared(placed, l)
  {
    assert [l][..0] == [];
  }

  /** A location, or one it refers to, and so on. */
  ghost predicate Within(x: Location, l: Location)
    decreases l
  {
    x == l || (l.ContentsOf? && Within(x, l.inner))
  }

  lemma {:induction false} WithinNesting(x: Location, l: Location)
    requires Within(x, l)
    ensures Nesting(x) <= Nesting(l)
    decreases l
  {
    if x != l {
      WithinNesting(x, l.inner);
    }
  }

  /** What is written for a location is the location and those it refers to, as far as they are not there yet. */
  lemma {:induction false} SharedIs(placed: seq<Location>, l: Location)
    requires NoDup(placed)
    ensures NoDup(Shared(placed, l)) && placed <= Shared(placed, l) && l in Shared(placed, l)
    ensures forall x :: x in Shared(placed, l) ==> x in placed || Within(x, l)
    decreases l
  {
    if l !in placed && l.ContentsOf? {
      SharedIs(placed, l.inner);
      NotInside(placed, l);
    }
  }

  lemma NotInside(placed: seq<Location>, l: Location)
    requires l.ContentsOf? && l !in placed && forall x :: x in Shared(placed, l.inner) ==> x in placed || Within(x, l.inner)
    ensures l !in Shared(placed, l.inner)
  {
    if l in Shared(placed, l.inner) {
      WithinNesting(l, l.inner);
      assert false;
    }
  }

  /** With each location comes the one it refers to. */
  ghost predicate Closed(placed: seq<Location>) {
    forall l :: l in placed && l.ContentsOf? ==> l.inner in placed
  }

  lemma {:induction false} ClosedWithin(placed: seq<Location>, x: Location, l: Location)
    requires Closed(placed) && l in placed && Within(x, l)
    ensures x in placed
    decreases l
  {
    if x != l {
      ClosedWithin(placed, x, l.inner);
    }
  }

  lemma {:induction false} SharedClosed(placed: seq<Location>, l: Location)
    requires NoDup(placed) && Closed(placed)
    ensures Closed(Shared(placed, l))
    decreases l
  {
    if l !in placed && l.ContentsOf? {
      SharedClosed(placed, l.inner);
      SharedIs(placed, l.inner);
    }
  }

  /** Each location and each one it refers to is written once, and no other. */
  lemma {:induction false} EachLocationOnce(ls: seq<Location>)
    ensures NoDup(SharedAll([], ls)) && Closed(SharedAll([], ls))
    ensures forall x :: x in SharedAll([], ls) <==> exists i :: 0 <= i < |ls| && Within(x, ls[i])
  {
    hide NoDup, Shared, Within;
    if ls == [] {
      NoLocations();
    } else {
      var n := |ls| - 1;
      var init, l := ls[..n], ls[n];
      EachLocationOnce(init);
      var placed := SharedAll([], init);
      SharedIs(placed, l);
      SharedClosed(placed, l);
      forall x ensures x in Shared(placed, l) <==> x in placed || Within(x, l) {
        if Within(x, l) {
          ClosedWithin(Shared(placed, l), x, l);
        }
      }
      forall x ensures (exists i :: 0 <= i < |ls| && Within(x, ls[i])) <==> (exists i :: 0 <= i < |init| && Within(x, init[i])) || Within(x, l) {
        if i :| 0 <= i < |ls| && Within(x, ls[i]) {
          assert i < n ==> Within(x, init[i]);
        }
        if i :| 0 <= i < |init| && Within(x, init[i]) {
          assert Within(x, ls[i]);
        }
      }
    }
  }

  lemma NoLocations()
    ensures NoDup<Location>([])
  {
  }

  lemma StillMissing(placed: seq<Location>, l: Location)
    requires NoDup(placed) && l.ContentsOf? && l !in placed
    ensures l !in Shared(placed, l.inner) && Shared(placed, l) == Shared(placed, l.inner) + [l]
  {
    SharedIs(placed, l.inner);
    NotInside(placed, l);
  }

  function Sizes(ls: seq<Location>): nat {
    if ls == [] then 0 else Sizes(ls[..|ls| - 1]) + LocSize(ls[|ls| - 1])
  }

  ghost predicate LocsAt(placed: seq<Location>, cache: map<Location, nat>) {
    placed != [] ==>
      var n := |placed| - 1;
      placed[n] in cache && cache[placed[n]] == Sizes(placed[..n]) && LocsAt(placed[..n], cache)
  }

  /** The cache gives each location written where it is, and the locations' texts are interned. */
  ghost predicate Cached(placed: seq<Location>, size: nat, cache: map<Location, nat>, order: seq<seq<Byte>>) {
    && NoDup(placed) && size == Sizes(placed) && LocsAt(placed, cache)
    && (forall l :: l in cache <==> l in placed)
    && (forall l :: l in cache && LocText(l).Text? ==> LocText(l).bytes in order)
  }

  lemma {:induction false} LocsStay(placed: seq<Location>, cache: map<Location, nat>, l: Location, x: nat)
    requires LocsAt(placed, cache) && l !in placed
    ensures LocsAt(placed, cache[l := x])
  {
    hide Sizes;
    if placed != [] {
      LocsStay(placed[..|placed| - 1], cache, l, x);
    }
  }

  lemma CacheOne(placed: seq<Location>, size: nat, cache: map<Location, nat>, order: seq<seq<Byte>>, l: Location)
    requires Cached(placed, size, cache, order) && l !in cache && (LocText(l).Text? ==> LocText(l).bytes in order)
    ensures Cached(placed + [l], size + LocSize(l), cache[l := size], order)
  {
    hide NoDup, LocText, LocSize;
    AddedOnce(placed, l);
    LocsStay(placed, cache, l, size);
  }

  lemma CachedStill(placed: seq<Location>, size: nat, cache: map<Location, nat>, order: seq<seq<Byte>>, s: Str)
    requires Cached(placed, size, cache, order)
    ensures Cached(placed, size, cache, Noted(order, s))
  {
    forall t | t in order ensures t in Noted(order, s) { }
  }

  // ------------------------------------------------------------ what a file holds

  function VarTexts(v: VarArg): seq<Str> {
    [v.name, LocText(v.location)]
  }

  function VarsTexts(vs: seq<VarArg>): seq<Str> {
    if vs == [] then [] else VarsTexts(vs[..|vs| - 1]) + VarTexts(vs[|vs| - 1])
  }

  function VarsLocs(vs: seq<VarArg>): seq<Location> {
    if vs == [] then [] else VarsLocs(vs[..|vs| - 1]) + [vs[|vs| - 1].location]
  }

  function FunTexts(f: Function): seq<Str> {
    VarsTexts(f.vars) + VarsTexts(f.args) + [f.file, f.name]
  }

  function FunLocs(f: Function): seq<Location> {
    VarsLocs(f.vars) + VarsLocs(f.args)
  }

  function FunsTexts(fs: seq<Function>): seq<Str> {
    if fs == [] then [] else FunsTexts(fs[..|fs| - 1]) + FunTexts(fs[|fs| - 1])
  }

  function FunsLocs(fs: seq<Function>): seq<Location> {
    if fs == [] then [] else FunsLocs(fs[..|fs| - 1]) + FunLocs(fs[|fs| - 1])
  }

  /** The texts of a file, in the order they are written. */
  function FileTexts(f: File): seq<Str> {
    [f.compiled] + FunsTexts(f.functions)
  }

  lemma VarNoted(order: seq<seq<Byte>>, v: VarArg)
    ensures NotedAll(order, VarTexts(v)) == Noted(Noted(order, v.name), LocText(v.location))
  {
    hide Noted;
    assert VarTexts(v) == [v.name] + [LocText(v.location)];
    NotedOn(order, [v.name], [LocText(v.location)]);
    NotedOne(order, v.name);
    NotedOne(NotedAll(order, [v.name]), LocText(v.location));
  }

  lemma VarsNoted(order: seq<seq<Byte>>, placed: seq<Location>, vs: seq<VarArg>, i: nat)
    requires i < |vs|
    ensures NotedAll(order, VarsTexts(vs[..i + 1])) == NotedAll(NotedAll(order, VarsTexts(vs[..i])), VarTexts(vs[i]))
    ensures SharedAll(placed, VarsLocs(vs[..i + 1])) == Shared(SharedAll(placed, VarsLocs(vs[..i])), vs[i].location)
  {
    hide Noted, Shared, NotedAll, SharedAll;
    assert vs[..i + 1][..i] == vs[..i];
    NotedOn(order, VarsTexts(vs[..i]), VarTexts(vs[i]));
    SharedOn(placed, VarsLocs(vs[..i]), [vs[i].location]);
    SharedOne(SharedAll(placed, VarsLocs(vs[..i])), vs[i].location);
  }

  lemma FunNoted(order: seq<seq<Byte>>, placed: seq<Location>, f: Function)
    ensures var o := NotedAll(NotedAll(order, VarsTexts(f.vars)), VarsTexts(f.args));
            NotedAll(order, FunTexts(f)) == Noted(Noted(o, f.file), f.name)
    ensures SharedAll(placed, FunLocs(f)) == SharedAll(SharedAll(placed, VarsLocs(f.vars)), VarsLocs(f.args))
  {
    hide Noted, Shared, NotedAll, SharedAll;
    var o := NotedAll(NotedAll(order, VarsTexts(f.vars)), VarsTexts(f.args));
    NotedOn(order, VarsTexts(f.vars), VarsTexts(f.args));
    assert FunTexts(f) == VarsTexts(f.vars) + VarsTexts(f.args) + ([f.file] + [f.name]);
    NotedOn(order, VarsTexts(f.vars) + VarsTexts(f.args), [f.file] + [f.name]);
    NotedOn(o, [f.file], [f.name]);
    NotedOne(o, f.file);
    NotedOne(NotedAll(o, [f.file]), f.name);
    SharedOn(placed, VarsLocs(f.vars), VarsLocs(f.args));
  }

  /** The bytes a function takes, its lists included. */
  function FunSize(f: Function): nat {
    40 + 8 * |f.lines| + 8 * |f.vars| + 8 * |f.args|
  }

  function FunsSize(fs: seq<Function>): nat {
    if fs == [] then 0 else FunsSize(fs[..|fs| - 1]) + FunSize(fs[|fs| - 1])
  }

  lemma FunsNoted(order: seq<seq<Byte>>, placed: seq<Location>, fs: seq<Function>, i: nat)
    requires i < |fs|
    ensures NotedAll(order, FunsTexts(fs[..i + 1])) == NotedAll(NotedAll(order, FunsTexts(fs[..i])), FunTexts(fs[i]))
    ensures SharedAll(placed, FunsLocs(fs[..i + 1])) == SharedAll(SharedAll(placed, FunsLocs(fs[..i])), FunLocs(fs[i]))
    ensures FunsSize(fs[..i + 1]) == FunsSize(fs[..i]) + FunSize(fs[i])
  {
    hide NotedAll, SharedAll, FunTexts, FunLocs;
    assert fs[..i + 1][..i] == fs[..i];
    NotedOn(order, FunsTexts(fs[..i]), FunTexts(fs[i]));
    SharedOn(placed, FunsLocs(fs[..i]), FunLocs(fs[i]));
  }

  /** The string section of a file. */
  function FileStrings(f: File): seq<Byte> {
    Section(NotedAll([], FileTexts(f)))
  }

  /** The length of a file: header, functions with their lists, each location and each text once. */
  function FileSize(f: File): nat {
    36 + FunsSize(f.functions) + Sizes(SharedAll([], FunsLocs(f.functions))) + |FileStrings(f)|
  }

  lemma FileNoted(f: File)
    ensures NotedAll([], FileTexts(f)) == NotedAll(Noted([], f.compiled), FunsTexts(f.functions))
  {
    hide Noted, NotedAll;
    NotedOn([], [f.compiled], FunsTexts(f.functions));
    NotedOne([], f.compiled);
  }

  lemma Nothing()
    ensures NotedAll([], []) == [] && SharedAll([], []) == [] && Interned([], [0], map[]) && Cached([], 0, map[], [])
  {
  }
}
