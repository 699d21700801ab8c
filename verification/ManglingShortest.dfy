/**
  How short mangled names are. The decoder accepts nothing but the five codes of a name, so the text
  of a method can be compared with every text that stands for the same signature.
 */
module ManglingShortest {
  import opened Mangling
  import opened ManglingDecodable
  import opened Options

  // ---------------------------------------------------------------------- numbers

  lemma {:induction false} GreedyOnly(s: string, acc: nat)
    requires acc > 0
    ensures Decimal(acc) + s == Decimal(Greedy(s, acc).0) + Greedy(s, acc).1
  {
    if StartsWithDigit(s) {
      var d := DigitValue(s[0]);
      GreedyOnly(s[1..], acc * 10 + d);
      assert Decimal(acc * 10 + d) == Decimal(acc) + [s[0]];
      assert s == [s[0]] + s[1..];
      assert Decimal(acc) + s == Decimal(acc * 10 + d) + s[1..];
    }
  }

  /** A number is read from its decimal digits only. */
  lemma NumberOnly(s: string)
    requires ParseNumber(s).Some?
    ensures s == Decimal(ParseNumber(s).value.0) + ParseNumber(s).value.1
  {
    var d := DigitValue(s[0]);
    assert s == [s[0]] + s[1..] && Decimal(d) == [s[0]];
    if s[0] != '0' {
      GreedyOnly(s[1..], d);
    }
  }

  lemma TextOnly(s: string)
    requires ParseText(s).Some?
    ensures s == WithLength(ParseText(s).value.0) + ParseText(s).value.1
  {
    hide ParseNumber, Decimal;
    NumberOnly(s);
    var (k, rest) := ParseNumber(s).value;
    assert rest == rest[..k] + rest[k..];
    assert Decimal(k) + rest == Decimal(k) + rest[..k] + rest[k..];
  }

  // ------------------------------------------------------------------------ names

  /** What is named last once a name has been written, whatever was before. */
  function Past(n: Name): State {
    State(Some(EncodeString(n.mod)), Some(EncodeString(n.nspace)))
  }

  /** A text for the name in this state, by one of the five codes. */
  predicate Codes(w: string, n: Name, st: State) {
    var name := WithLength(EncodeString(n.name));
    var scoped := WithLength(EncodeString(n.nspace)) + name;
    || (w == "V" + name && st == Past(n))
    || (w == "U" + scoped && st.mod == Past(n).mod)
    || (w == "W" + scoped && n.mod == "mscorlib")
    || (w == "X" + name && n.mod == "libsupcs" && n.nspace == "libsupcs")
    || w == "N" + WithLength(EncodeString(n.mod)) + scoped
  }

  /** The decoded name is the one whose escaped parts were read. */
  lemma DecodedOnly(mod: string, nspace: string, name: string, rest: string)
    requires Decoded(mod, nspace, name, rest).Some?
    ensures var (n, _, st) := Decoded(mod, nspace, name, rest).value;
            mod == EncodeString(n.mod) && nspace == EncodeString(n.nspace) && name == EncodeString(n.name) && st == Past(n)
  {
    hide EncodeString, DecodeString;
    var n := Decoded(mod, nspace, name, rest).value.0;
    EncodeStringInverse(n.mod);
    EncodeStringInverse(n.nspace);
    EncodeStringInverse(n.name);
  }

  lemma ScopedOnly(mod: string, s: string)
    requires DecodeScoped(mod, s).Some?
    ensures var (n, rest, st) := DecodeScoped(mod, s).value;
            mod == EncodeString(n.mod) && st == Past(n)
            && s == WithLength(EncodeString(n.nspace)) + WithLength(EncodeString(n.name)) + rest
  {
    hide EncodeString, DecodeString, ParseText, WithLength, Decoded;
    var (nspace, rest) := ParseText(s).value;
    var (name, rest') := ParseText(rest).value;
    TextOnly(s);
    TextOnly(rest);
    DecodedOnly(mod, nspace, name, rest');
    assert WithLength(nspace) + (WithLength(name) + rest') == WithLength(nspace) + WithLength(name) + rest';
  }

  lemma PlainOnly(p: string)
    ensures EncodeString(p) == "libsupcs" <==> p == "libsupcs"
    ensures EncodeString(p) == "mscorlib" <==> p == "mscorlib"
  {
    hide EncodeString, DecodeString;
    LibsupcsPlain();
    EncodeStringInverse(p);
    EncodeStringInverse("libsupcs");
    EncodeStringInverse("mscorlib");
  }

  /** The decoder reads a name from its five codes and from nothing else. */
  lemma OnlyCodes(s: string, st: State) returns (w: string)
    requires DecodeName(s, st).Some?
    ensures var (n, rest, st') := DecodeName(s, st).value; s == w + rest && Codes(w, n, st) && st' == Past(n)
  {
    hide EncodeString, DecodeString, ParseText, WithLength, Decoded, DecodeScoped;
    var (n, rest, _) := DecodeName(s, st).value;
    w := s[..|s| - |rest|];
    var body := s[1..];
    assert s == [s[0]] + body;
    PlainOnly(n.mod);
    PlainOnly(n.nspace);
    if s[0] == 'V' || s[0] == 'X' {
      TextOnly(body);
      var name := ParseText(body).value.0;
      if s[0] == 'V' {
        DecodedOnly(st.mod.value, st.nspace.value, name, rest);
      } else {
        DecodedOnly("libsupcs", "libsupcs", name, rest);
      }
      assert s == [s[0]] + WithLength(name) + rest;
    } else {
      OnlyScopedCodes(s, st);
    }
  }

  lemma OnlyScopedCodes(s: string, st: State)
    requires DecodeName(s, st).Some? && s[0] != 'V' && s[0] != 'X'
    ensures var (n, rest, st') := DecodeName(s, st).value;
            var w := s[..|s| - |rest|];
            s == w + rest && Codes(w, n, st) && st' == Past(n)
  {
    hide EncodeString, DecodeString, ParseText, WithLength, Decoded, DecodeScoped;
    var (n, rest, _) := DecodeName(s, st).value;
    var body := s[1..];
    PlainOnly(n.mod);
    var scoped := WithLength(EncodeString(n.nspace)) + WithLength(EncodeString(n.name));
    if s[0] == 'N' {
      TextOnly(body);
      var (mod, tail) := ParseText(body).value;
      ScopedOnly(mod, tail);
      assert s == ("N" + WithLength(mod) + scoped) + rest;
    } else {
      ScopedOnly(if s[0] == 'U' then st.mod.value else "mscorlib", body);
      assert s == ([s[0]] + scoped) + rest;
    }
  }

  /**
    Of the texts for a name the thrifty one is shortest. Another one as short names
    the module again although it is the current one.
   */
  lemma CodesLeast(w: string, n: Name, st: State)
    requires Codes(w, n, st)
    ensures |w| >= |NameSpelling(n, st, true)|
    ensures |w| == |NameSpelling(n, st, true)| && w != NameSpelling(n, st, true)
        ==> (w[0] == 'W' || w[0] == 'X') && st.mod == Past(n).mod
  {
    hide EncodeString;
    PlainOnly(n.mod);
    PlainOnly(n.nspace);
    LibsupcsPlain();
  }

  /** Overlooking `X` costs the namespace, nine characters. */
  lemma NameLength(n: Name, st: State)
    ensures |NameText(n, st).0| == |NameSpelling(n, st, true)| + if Overlooked(n, st) then 9 else 0
    ensures NameText(n, st).1 == Past(n)
  {
    hide EncodeString;
    PlainOnly(n.mod);
    PlainOnly(n.nspace);
    LibsupcsPlain();
    assert Decimal(8) == "8";
  }

  /** The text stands for the name in this state. */
  predicate Stands(s: string, n: Name, st: State) {
    DecodeName(s, st).Some? && DecodeName(s, st).value.0 == n && DecodeName(s, st).value.1 == ""
  }

  /** No text for a name is shorter than the one written, unless `X` is overlooked. */
  lemma NameShortest(n: Name, st: State)
    requires GoodName(n)
    ensures (forall s :: Stands(s, n, st) ==> |s| >= |NameText(n, st).0|) <==> !Overlooked(n, st)
  {
    hide DecodeName, NameText, Codes, NameSpelling;
    NameLength(n, st);
    forall s | Stands(s, n, st)
      ensures |s| >= |NameSpelling(n, st, true)|
    {
      var w := OnlyCodes(s, st);
      CodesLeast(w, n, st);
    }
    SpellingDecodes(n, st, true, "");
    assert NameSpelling(n, st, true) + "" == NameSpelling(n, st, true);
    assert Stands(NameSpelling(n, st, true), n, st);
  }

  // ------------------------------------------------------------------------ types

  lemma LettersOnly(c: char)
    ensures SimpleLetter(c).Some? ==> SimpleText(SimpleLetter(c).value) == Some([c])
    ensures SimpleExtended(c).Some? ==> SimpleText(SimpleExtended(c).value) == Some("u1" + [c])
  {
    if SimpleExtended(c).Some? {
      assert SimpleText(SimpleExtended(c).value).value == "u1" + [c];
    }
  }

  /** A text that decodes to the type, up to `rest`, is no shorter than the thrifty one, and leaves the same state. */
  ghost predicate Least(s: string, st: State, t: Type, rest: string, st': State) {
    |s| - |rest| >= |TypeSpelling(t, st, true)| && st' == TypeText(t, st).1
  }

  lemma {:induction false} TypeLeast(s: string, st: State)
    requires DecodeType(s, st).Some?
    ensures var (t, rest, st') := DecodeType(s, st).value; Least(s, st, t, rest, st')
    decreases |s|, 0
  {
    hide DecodeName, ParseNumber, NameText, NameSpelling, Decimal, SimpleText, SimpleLetter, SimpleExtended;
    if s[0] == 'B' || s[0] == 'R' || s[0] == 'P' {
      TypeLeast(s[1..], st);
    } else if s[0] == 'u' {
      ExtendedLeast(s, st);
    } else if SimpleLetter(s[0]).Some? {
      LettersOnly(s[0]);
    } else {
      NamedLeast(s, st);
    }
  }

  lemma {:induction false} ExtendedLeast(s: string, st: State)
    requires |s| >= 3 && DecodeExtended(s, st).Some?
    ensures var (t, rest, st') := DecodeExtended(s, st).value; Least(s, st, t, rest, st')
    decreases |s| - 1, 1
  {
    hide DecodeType, ParseNumber, NameText, NameSpelling, Decimal, SimpleText, SimpleExtended;
    if s[2] == 'Z' {
      TypeLeast(s[3..], st);
    } else if s[2] == 'G' || s[2] == 'g' {
      NumberOnly(s[3..]);
    } else {
      LettersOnly(s[2]);
    }
  }

  lemma NameLeast(s: string, st: State)
    requires DecodeName(s, st).Some?
    ensures var (n, rest, st') := DecodeName(s, st).value;
            |s| - |rest| >= |NameSpelling(n, st, true)| && st' == NameText(n, st).1
  {
    hide DecodeName, NameText, Codes, Past, NameSpelling;
    var w := OnlyCodes(s, st);
    var n := DecodeName(s, st).value.0;
    CodesLeast(w, n, st);
    NameLength(n, st);
  }

  lemma {:induction false} NamedLeast(s: string, st: State)
    requires DecodeType(s, st).Some? && DecodeName(s, st).Some?
    requires var t := DecodeType(s, st).value.0; t.Named? || t.Generic?
    ensures var (t, rest, st') := DecodeType(s, st).value; Least(s, st, t, rest, st')
    decreases |s| - 1, 2
  {
    hide DecodeName, ParseNumber, NameText, NameSpelling, Decimal, SimpleText, SimpleLetter, SimpleExtended;
    NameLeast(s, st);
    var (def, rest, st1) := DecodeName(s, st).value;
    if |rest| >= 2 && rest[..2] == "_G" {
      NumberOnly(rest[2..]);
      var (k, list) := ParseNumber(rest[2..]).value;
      TypesLeast(k, list, st1);
    }
  }

  lemma {:induction false} TypesLeast(k: nat, s: string, st: State)
    requires DecodeTypes(k, s, st).Some?
    ensures var (ts, rest, st') := DecodeTypes(k, s, st).value;
            |s| - |rest| >= |TypesSpelling(ts, st, true)| && st' == TypesText(ts, st).1 && Count(ts) == k
    decreases |s|, 1
  {
    hide DecodeType, TypeText, TypeSpelling;
    if k > 0 {
      TypeLeast(s, st);
      var (t, rest, st1) := DecodeType(s, st).value;
      TypesLeast(k - 1, rest, st1);
    }
  }

  // ---------------------------------------------------------------------- methods

  lemma ParametersLeast(declaring: Type, name: string, returns_: Type, s: string, st: State)
    requires DecodeParameters(declaring, name, returns_, s, st).Some?
    ensures var g := DecodeParameters(declaring, name, returns_, s, st).value;
            g.declaring == declaring && g.name == name && g.returns_ == returns_ && |s| >= |ParametersSpelling(g, st, true)|
  {
    hide DecodeTypes, ParseNumber, TypesSpelling, Decimal;
    var s1 := After(s, "_P").value;
    NumberOnly(s1);
    var (k, s2) := ParseNumber(s1).value;
    var this_ := After(s2, "u1t");
    if this_.Some? {
      TypesLeast(k - 1, this_.value, st);
    } else {
      TypesLeast(k, s2, st);
    }
  }

  lemma ReturnLeast(declaring: Type, name: string, s: string, st: State)
    requires DecodeReturn(declaring, name, s, st).Some?
    ensures var g := DecodeReturn(declaring, name, s, st).value;
            g.declaring == declaring && g.name == name && |s| >= |ReturnSpelling(g, st, true)|
  {
    hide DecodeType, TypeSpelling, TypeText, DecodeParameters, ParametersSpelling;
    var s1 := After(s, "_R").value;
    TypeLeast(s1, st);
    var (returns_, s2, st2) := DecodeType(s1, st).value;
    ParametersLeast(declaring, name, returns_, s2, st2);
  }

  /** No text that decodes to a signature is shorter than its thrifty spelling. */
  lemma MethodLeast(s: string)
    requires DecodeMethod(s).Some?
    ensures |s| >= |MethodSpelling(DecodeMethod(s).value, true)|
  {
    hide DecodeType, TypeSpelling, TypeText, DecodeReturn, ReturnSpelling, ParseText, WithLength, DecodeString, EncodeString;
    var st := State(None, None);
    var s1 := After(s, "_Z").value;
    TypeLeast(s1, st);
    var (declaring, s2, st2) := DecodeType(s1, st).value;
    var s3 := After(s2, "M_0_").value;
    TextOnly(s3);
    var (name, s4) := ParseText(s3).value;
    var n := DecodeString(name).value;
    EncodeStringInverse(n);
    ReturnLeast(declaring, n, s4, st2);
  }

  // -------------------------------------------------------------- what is overlooked

  /** The names in a type, in the order they are written. */
  function Names(t: Type): seq<Name> {
    match t
    case Boxed(u) => Names(u)
    case ManagedPointer(u) => Names(u)
    case UnmanagedPointer(u) => Names(u)
    case ZeroBasedArray(u) => Names(u)
    case Generic(def, args) => [def] + AllNames(args)
    case Named(def) => [def]
    case _ => []
  }

  function AllNames(ts: Types): seq<Name> {
    if ts.Nil? then [] else Names(ts.head) + AllNames(ts.tail)
  }

  function MethodNames(g: Signature): seq<Name> {
    Names(g.declaring) + Names(g.returns_) + AllNames(g.parameters)
  }

  /** The state after these names. */
  function Behind(ns: seq<Name>, st: State): State {
    if ns == [] then st else Past(ns[|ns| - 1])
  }

  /** The k-th name follows another namespace of libsupcs. */
  predicate OverlookedAt(ns: seq<Name>, k: nat)
    requires k < |ns|
  {
    k > 0 && ns[k].mod == "libsupcs" && ns[k].nspace == "libsupcs" && ns[k - 1].mod == "libsupcs" && ns[k - 1].nspace != "libsupcs"
  }

  /** How many names do. */
  function Lapses(ns: seq<Name>): nat {
    if ns == [] then 0 else Lapses(ns[..|ns| - 1]) + if OverlookedAt(ns, |ns| - 1) then 1 else 0
  }

  /** What they cost: a namespace, nine characters, each. */
  function Wasted(g: Signature): nat {
    9 * Lapses(MethodNames(g))
  }

  function LapsesFrom(ns: seq<Name>, st: State): nat {
    if ns == [] then 0
    else
      var init := ns[..|ns| - 1];
      LapsesFrom(init, st) + if Overlooked(ns[|ns| - 1], Behind(init, st)) then 1 else 0
  }

  lemma {:induction false} LapsesAre(ns: seq<Name>)
    ensures LapsesFrom(ns, State(None, None)) == Lapses(ns)
  {
    hide EncodeString;
    if ns != [] {
      var init := ns[..|ns| - 1];
      LapsesAre(init);
      if init != [] {
        var n := init[|init| - 1];
        PlainOnly(n.mod);
        PlainOnly(n.nspace);
      }
    }
  }

  lemma {:induction false} LapsesAdd(a: seq<Name>, b: seq<Name>, st: State)
    ensures LapsesFrom(a + b, st) == LapsesFrom(a, st) + LapsesFrom(b, Behind(a, st))
    ensures Behind(a + b, st) == Behind(b, Behind(a, st))
    decreases |b|
  {
    hide Overlooked, Past;
    if b == [] {
      assert a + b == a;
    } else {
      var init := b[..|b| - 1];
      LapsesAdd(a, init, st);
      assert (a + b)[..|a + b| - 1] == a + init;
    }
  }

  /** A type is longer than need be by nine characters for each lapse. */
  lemma {:induction false} TypeLength(t: Type, st: State)
    ensures |TypeText(t, st).0| == |TypeSpelling(t, st, true)| + 9 * LapsesFrom(Names(t), st)
    ensures TypeText(t, st).1 == Behind(Names(t), st)
  {
    hide NameText, NameSpelling, Overlooked, Past, Decimal, SimpleText;
    match t
    case Boxed(u) => TypeLength(u, st);
    case ManagedPointer(u) => TypeLength(u, st);
    case UnmanagedPointer(u) => TypeLength(u, st);
    case ZeroBasedArray(u) => TypeLength(u, st);
    case Named(def) => OneName(def, st);
    case Generic(def, args) =>
      OneName(def, st);
      TypesLength(args, Past(def));
      LapsesAdd([def], AllNames(args), st);
    case _ =>
  }

  lemma OneName(n: Name, st: State)
    ensures |NameText(n, st).0| == |NameSpelling(n, st, true)| + 9 * LapsesFrom([n], st)
    ensures NameText(n, st).1 == Past(n) == Behind([n], st)
  {
    hide NameText, NameSpelling, Overlooked, Past;
    NameLength(n, st);
    assert [n][..0] == [];
  }

  lemma {:induction false} TypesLength(ts: Types, st: State)
    ensures |TypesText(ts, st).0| == |TypesSpelling(ts, st, true)| + 9 * LapsesFrom(AllNames(ts), st)
    ensures TypesText(ts, st).1 == Behind(AllNames(ts), st)
  {
    hide TypeText, TypeSpelling, Overlooked, Past;
    if ts.Cons? {
      TypeLength(ts.head, st);
      var st1 := TypeText(ts.head, st).1;
      TypesLength(ts.tail, st1);
      LapsesAdd(Names(ts.head), AllNames(ts.tail), st);
    }
  }

  lemma MethodLength(g: Signature)
    ensures |MethodSpelling(g, false)| == |MethodSpelling(g, true)| + Wasted(g)
  {
    hide TypeText, TypeSpelling, TypesText, TypesSpelling, Overlooked, Past, Decimal, WithLength, EncodeString, Lapses;
    var st := State(None, None);
    var st1 := TypeText(g.declaring, st).1;
    var st2 := TypeText(g.returns_, st1).1;
    PlainSpelling(g.declaring, st);
    PlainSpelling(g.returns_, st1);
    PlainSpellings(g.parameters, st2);
    TypeLength(g.declaring, st);
    TypeLength(g.returns_, st1);
    TypesLength(g.parameters, st2);
    LapsesAdd(Names(g.declaring), Names(g.returns_), st);
    LapsesAdd(Names(g.declaring) + Names(g.returns_), AllNames(g.parameters), st);
    LapsesAre(MethodNames(g));
  }

  /**
    The mangled name of a method is longer than the shortest text that decodes to the same
    signature by nine characters for each lapse, and by no more.
   */
  lemma MangledLength(m: Method) returns (shortest: string)
    requires GoodMethod(m)
    ensures DecodeMethod(shortest) == Some(SignatureOf(m))
    ensures forall s :: DecodeMethod(s) == Some(SignatureOf(m)) ==> |s| >= |shortest|
    ensures |MethodText(m)| == |shortest| + Wasted(SignatureOf(m))
  {
    hide DecodeMethod, MethodText, MethodSpelling, GoodType, GoodTypes, MethodNames, Lapses;
    var g := SignatureOf(m);
    shortest := MethodSpelling(g, true);
    MethodSpellingDecodes(g, true);
    MethodIsSpelled(m);
    MethodLength(g);
    forall s | DecodeMethod(s) == Some(g)
      ensures |s| >= |shortest|
    {
      MethodLeast(s);
    }
  }

  /** So it is the shortest exactly if no name follows another namespace of libsupcs. */
  lemma MangledShortest(m: Method)
    requires GoodMethod(m)
    ensures (forall s :: DecodeMethod(s) == Some(SignatureOf(m)) ==> |s| >= |MethodText(m)|)
       <==> (var ns := MethodNames(SignatureOf(m)); forall k: nat | k < |ns| :: !OverlookedAt(ns, k))
  {
    hide DecodeMethod, MethodText, GoodMethod, MethodNames, OverlookedAt;
    var shortest := MangledLength(m);
    NoLapses(MethodNames(SignatureOf(m)));
  }

  lemma {:induction false} NoLapses(ns: seq<Name>)
    ensures Lapses(ns) == 0 <==> forall k: nat | k < |ns| :: !OverlookedAt(ns, k)
  {
    if ns != [] {
      var init := ns[..|ns| - 1];
      NoLapses(init);
      assert forall k: nat | k < |init| :: OverlookedAt(init, k) == OverlookedAt(ns, k);
    }
  }

  /** `libsupcs.A` after a name in another namespace of libsupcs: twelve characters where three would do. */
  lemma OverlookedExample(st: State)
    requires st == State(Some("libsupcs"), Some("x86"))
    ensures var n := Name("libsupcs", "libsupcs", "A");
            NameText(n, st).0 == "U8libsupcs1A" && DecodeName("X1A", st) == Some((n, "", Past(n)))
  {
    hide DecodeName;
    var n := Name("libsupcs", "libsupcs", "A");
    LibsupcsPlain();
    assert EncodeString("A") == "A";
    assert Decimal(8) == "8" && Decimal(1) == "1";
    SpellingDecodes(n, st, true, "");
    assert NameSpelling(n, st, true) + "" == "X1A";
    NameLength(n, st);
  }
}
