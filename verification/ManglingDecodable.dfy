/** Mangled names can be decoded, so no two methods share one. */
module ManglingDecodable {
  import opened Mangling
  import opened Options

  // ---------------------------------------------------------------------- numbers

  lemma {:induction false} GreedyDecimal(n: nat, rest: string)
    ensures Greedy(Decimal(n) + rest, 0) == Greedy(rest, n)
  {
    if n < 10 {
      assert ([Digit(n)] + rest)[1..] == rest;
    } else {
      var d := [Digit(n % 10)];
      GreedyDecimal(n / 10, d + rest);
      assert Decimal(n) + rest == Decimal(n / 10) + (d + rest);
      assert (d + rest)[1..] == rest;
    }
  }

  lemma {:induction false} NoLeadingZero(n: nat)
    requires n > 0
    ensures Decimal(n)[0] != '0'
  {
    if n >= 10 {
      NoLeadingZero(n / 10);
    }
  }

  lemma NumberDecodes(n: nat, rest: string)
    requires n == 0 || !StartsWithDigit(rest)
    ensures ParseNumber(Decimal(n) + rest) == Some((n, rest))
  {
    var s := Decimal(n) + rest;
    assert s[0] == Decimal(n)[0];
    if n == 0 {
      assert s[1..] == rest;
    } else {
      NoLeadingZero(n);
      GreedyDecimal(n, rest);
    }
  }

  lemma TextDecodes(x: string, rest: string)
    requires !StartsWithDigit(x)
    ensures ParseText(WithLength(x) + rest) == Some((x, rest))
  {
    assert WithLength(x) + rest == Decimal(|x|) + (x + rest);
    NumberDecodes(|x|, x + rest);
    assert (x + rest)[..|x|] == x && (x + rest)[|x|..] == rest;
  }

  // ------------------------------------------------------------------------ names

  /** None of module, namespace and name begins with a digit; each may be empty. */
  predicate GoodName(n: Name) {
    !StartsWithDigit(n.mod) && !StartsWithDigit(n.name) && !StartsWithDigit(n.nspace)
  }

  lemma ScopedDecodes(mod: string, nspace: string, name: string, rest: string)
    requires !StartsWithDigit(nspace) && !StartsWithDigit(name)
    ensures DecodeScoped(mod, WithLength(nspace) + WithLength(name) + rest)
         == Decoded(mod, nspace, name, rest)
  {
    hide WithLength, ParseText;
    assert WithLength(nspace) + WithLength(name) + rest == WithLength(nspace) + (WithLength(name) + rest);
    TextDecodes(nspace, WithLength(name) + rest);
    TextDecodes(name, rest);
  }

  lemma Decodes(n: Name, rest: string)
    requires GoodName(n)
    ensures var mod, nspace := EncodeString(n.mod), EncodeString(n.nspace);
            Decoded(mod, nspace, EncodeString(n.name), rest) == Some((n, rest, State(Some(mod), Some(nspace))))
    ensures !StartsWithDigit(EncodeString(n.mod)) && !StartsWithDigit(EncodeString(n.nspace)) && !StartsWithDigit(EncodeString(n.name))
  {
    hide EncodeString, DecodeString;
    EncodeStringInverse(n.mod);
    EncodeStringInverse(n.nspace);
    EncodeStringInverse(n.name);
    EncodeStart(n.mod);
    EncodeStart(n.nspace);
    EncodeStart(n.name);
  }

  /** A name in the module named last. */
  lemma NearNameDecodes(n: Name, st: State, rest: string)
    requires GoodName(n) && Some(EncodeString(n.mod)) == st.mod
    ensures DecodeName(NameText(n, st).0 + rest, st) == Some((n, rest, NameText(n, st).1))
  {
    hide WithLength, ParseText, EncodeString, DecodeScoped, Decoded;
    var mod, nspace, name := EncodeString(n.mod), EncodeString(n.nspace), EncodeString(n.name);
    Decodes(n, rest);
    var s := NameText(n, st).0 + rest;
    if Some(nspace) == st.nspace {
      assert s[1..] == WithLength(name) + rest;
      TextDecodes(name, rest);
    } else {
      assert s[1..] == WithLength(nspace) + WithLength(name) + rest;
      ScopedDecodes(mod, nspace, name, rest);
    }
  }

  /** A name in another module. */
  lemma FarNameDecodes(n: Name, st: State, rest: string)
    requires GoodName(n) && Some(EncodeString(n.mod)) != st.mod
    ensures DecodeName(NameText(n, st).0 + rest, st) == Some((n, rest, NameText(n, st).1))
  {
    hide WithLength, ParseText, EncodeString, DecodeScoped, Decoded;
    var mod, nspace, name := EncodeString(n.mod), EncodeString(n.nspace), EncodeString(n.name);
    Decodes(n, rest);
    var s := NameText(n, st).0 + rest;
    var tail := WithLength(nspace) + WithLength(name) + rest;
    ScopedDecodes(mod, nspace, name, rest);
    if mod == "mscorlib" {
      assert s[1..] == tail;
    } else if mod == "libsupcs" && nspace == "libsupcs" {
      assert s[1..] == WithLength(name) + rest;
      TextDecodes(name, rest);
    } else {
      assert s[1..] == WithLength(mod) + tail;
      TextDecodes(mod, tail);
    }
  }

  /** A name decodes under the state it was encoded in, and leaves the same state behind. */
  lemma NameDecodes(n: Name, st: State, rest: string)
    requires GoodName(n)
    ensures DecodeName(NameText(n, st).0 + rest, st) == Some((n, rest, NameText(n, st).1))
  {
    hide *;
    if Some(EncodeString(n.mod)) == st.mod {
      NearNameDecodes(n, st, rest);
    } else {
      FarNameDecodes(n, st, rest);
    }
  }

  // -------------------------------------------------------------------- spellings

  /** A name of libsupcs.libsupcs met while libsupcs is the current module, in another namespace: `U`, although `X` would do. */
  predicate Overlooked(n: Name, st: State) {
    n.mod == "libsupcs" && n.nspace == "libsupcs" && st.mod == Some("libsupcs") && st.nspace != Some("libsupcs")
  }

  /** The text of a name, or, if `thrifty`, the one that does not overlook `X`. */
  function NameSpelling(n: Name, st: State, thrifty: bool): string {
    if thrifty && Overlooked(n, st) then "X" + WithLength(EncodeString(n.name)) else NameText(n, st).0
  }

  function TypeSpelling(t: Type, st: State, thrifty: bool): string {
    match t
    case Boxed(u) => "B" + TypeSpelling(u, st, thrifty)
    case ManagedPointer(u) => "R" + TypeSpelling(u, st, thrifty)
    case UnmanagedPointer(u) => "P" + TypeSpelling(u, st, thrifty)
    case ZeroBasedArray(u) => "u1Z" + TypeSpelling(u, st, thrifty)
    case Generic(def, args) =>
      NameSpelling(def, st, thrifty) + "_G" + Decimal(Count(args)) + TypesSpelling(args, NameText(def, st).1, thrifty)
    case Named(def) => NameSpelling(def, st, thrifty)
    case _ => TypeText(t, st).0
  }

  function TypesSpelling(ts: Types, st: State, thrifty: bool): string {
    if ts.Nil? then "" else TypeSpelling(ts.head, st, thrifty) + TypesSpelling(ts.tail, TypeText(ts.head, st).1, thrifty)
  }

  lemma {:induction false} PlainSpelling(t: Type, st: State)
    ensures TypeSpelling(t, st, false) == TypeText(t, st).0
  {
    hide NameText, Decimal, SimpleText;
    match t
    case Boxed(u) => PlainSpelling(u, st);
    case ManagedPointer(u) => PlainSpelling(u, st);
    case UnmanagedPointer(u) => PlainSpelling(u, st);
    case ZeroBasedArray(u) => PlainSpelling(u, st);
    case Generic(def, args) => PlainSpellings(args, NameText(def, st).1);
    case _ =>
  }

  lemma {:induction false} PlainSpellings(ts: Types, st: State)
    ensures TypesSpelling(ts, st, false) == TypesText(ts, st).0
  {
    hide TypeSpelling, TypeText;
    if ts.Cons? {
      PlainSpelling(ts.head, st);
      PlainSpellings(ts.tail, TypeText(ts.head, st).1);
    }
  }

  lemma OverlookedDecodes(n: Name, st: State, rest: string)
    requires GoodName(n) && Overlooked(n, st)
    ensures DecodeName("X" + WithLength(EncodeString(n.name)) + rest, st) == Some((n, rest, NameText(n, st).1))
  {
    hide WithLength, ParseText, EncodeString, DecodeScoped, Decoded;
    Decodes(n, rest);
    var s := "X" + WithLength(EncodeString(n.name)) + rest;
    assert s[1..] == WithLength(EncodeString(n.name)) + rest;
    TextDecodes(EncodeString(n.name), rest);
    LibsupcsPlain();
  }

  lemma LibsupcsPlain()
    ensures EncodeString("libsupcs") == "libsupcs" && EncodeString("mscorlib") == "mscorlib"
  {
    hide EncodeAll;
  }

  lemma SpellingDecodes(n: Name, st: State, thrifty: bool, rest: string)
    requires GoodName(n)
    ensures DecodeName(NameSpelling(n, st, thrifty) + rest, st) == Some((n, rest, NameText(n, st).1))
  {
    hide DecodeName, NameText, WithLength, EncodeString;
    if thrifty && Overlooked(n, st) {
      OverlookedDecodes(n, st, rest);
    } else {
      NameDecodes(n, st, rest);
    }
  }

  // ------------------------------------------------------------------------ types

  predicate GoodType(t: Type) {
    match t
    case Boxed(u) => GoodType(u)
    case ManagedPointer(u) => GoodType(u)
    case UnmanagedPointer(u) => GoodType(u)
    case ZeroBasedArray(u) => GoodType(u)
    case Simple(code) => SimpleText(code).Some?
    case Generic(def, args) => GoodName(def) && GoodTypes(args)
    case TypeParameter(_) => true
    case MethodParameter(_) => true
    case Named(def) => GoodName(def)
  }

  predicate GoodTypes(ts: Types) {
    ts.Nil? || (GoodType(ts.head) && GoodTypes(ts.tail))
  }

  /** A text after which a type has ended. */
  predicate Ends(rest: string) {
    !StartsWithDigit(rest) && !(|rest| >= 2 && rest[..2] == "_G")
  }

  /** Type texts begin with a letter. */
  lemma {:induction false} TypeStart(t: Type, st: State, thrifty: bool)
    requires GoodType(t)
    ensures var s := TypeSpelling(t, st, thrifty); s != [] && !IsDigit(s[0]) && s[0] != '_'
  {
    match t
    case Simple(code) =>
    case Generic(def, _) => NameStart(def, st, thrifty);
    case Named(def) => NameStart(def, st, thrifty);
    case _ =>
  }

  lemma NameStart(n: Name, st: State, thrifty: bool)
    ensures var s := NameSpelling(n, st, thrifty);
            s != [] && (s[0] == 'V' || s[0] == 'U' || s[0] == 'W' || s[0] == 'X' || s[0] == 'N')
  {
    hide WithLength, EncodeString;
  }

  lemma NameLetters(c: char)
    requires c == 'V' || c == 'U' || c == 'W' || c == 'X' || c == 'N'
    ensures SimpleLetter(c) == None
  {
  }

  lemma EndsBeforeTypes(ts: Types, st: State, thrifty: bool, rest: string)
    requires GoodTypes(ts) && Ends(rest)
    ensures Ends(TypesSpelling(ts, st, thrifty) + rest)
  {
    if ts.Nil? {
      assert "" + rest == rest;
    } else {
      TypeStart(ts.head, st, thrifty);
      assert TypesSpelling(ts, st, thrifty)[0] == TypeSpelling(ts.head, st, thrifty)[0];
    }
  }

  /** A simple type is a letter of its own, or `u1` and a letter. */
  lemma SimpleLetters(code: nat) returns (c: char, extended: bool)
    requires SimpleText(code).Some?
    ensures SimpleText(code).value == if extended then "u1" + [c] else [c]
    ensures (if extended then SimpleExtended(c) else SimpleLetter(c)) == Some(code)
  {
    extended := |SimpleText(code).value| == 3;
    c := SimpleText(code).value[if extended then 2 else 0];
  }

  lemma LetterDecodes(c: char, st: State, rest: string)
    requires SimpleLetter(c).Some?
    ensures DecodeType([c] + rest, st) == Some((Simple(SimpleLetter(c).value), rest, st))
  {
    hide DecodeName, ParseNumber;
    assert ([c] + rest)[1..] == rest;
  }

  lemma ExtendedDecodes(c: char, st: State, rest: string)
    requires SimpleExtended(c).Some?
    ensures DecodeType("u1" + [c] + rest, st) == Some((Simple(SimpleExtended(c).value), rest, st))
  {
    hide DecodeName, ParseNumber;
    var s := "u1" + [c] + rest;
    assert s[0] == 'u' && s[1] == '1' && s[2] == c && s[3..] == rest;
  }

  lemma SimpleDecodes(code: nat, st: State, rest: string)
    requires SimpleText(code).Some?
    ensures DecodeType(SimpleText(code).value + rest, st) == Some((Simple(code), rest, st))
  {
    hide DecodeType, SimpleLetter, SimpleExtended, SimpleText;
    var c, extended := SimpleLetters(code);
    if extended {
      ExtendedDecodes(c, st, rest);
    } else {
      LetterDecodes(c, st, rest);
    }
  }

  /** Either spelling of a type decodes in front of anything that cannot be mistaken for its continuation. */
  lemma {:induction false} TypeSpellingDecodes(t: Type, st: State, thrifty: bool, rest: string)
    requires GoodType(t) && Ends(rest)
    ensures DecodeType(TypeSpelling(t, st, thrifty) + rest, st) == Some((t, rest, TypeText(t, st).1))
    decreases t
  {
    hide DecodeName, ParseNumber, NameText, Decimal, NameSpelling;
    var s := TypeSpelling(t, st, thrifty) + rest;
    match t
    case Boxed(u) => PrefixDecodes(t, u, "B", st, thrifty, rest);
    case ManagedPointer(u) => PrefixDecodes(t, u, "R", st, thrifty, rest);
    case UnmanagedPointer(u) => PrefixDecodes(t, u, "P", st, thrifty, rest);
    case ZeroBasedArray(u) =>
      assert s[3..] == TypeSpelling(u, st, thrifty) + rest;
      assert s[0] == 'u' && s[1] == '1' && s[2] == 'Z';
      TypeSpellingDecodes(u, st, thrifty, rest);
    case Simple(code) => SimpleDecodes(code, st, rest);
    case TypeParameter(i) =>
      assert s[3..] == Decimal(i) + rest;
      assert s[0] == 'u' && s[1] == '1' && s[2] == 'G';
      NumberDecodes(i, rest);
    case MethodParameter(i) =>
      assert s[3..] == Decimal(i) + rest;
      assert s[0] == 'u' && s[1] == '1' && s[2] == 'g';
      NumberDecodes(i, rest);
    case Named(def) =>
      NameStart(def, st, thrifty);
      SpellingDecodes(def, st, thrifty, rest);
    case Generic(def, args) => GenericDecodes(def, args, st, thrifty, rest);
  }

  lemma {:induction false} PrefixDecodes(t: Type, u: Type, p: string, st: State, thrifty: bool, rest: string)
    requires GoodType(u) && Ends(rest)
    requires (t == Boxed(u) && p == "B") || (t == ManagedPointer(u) && p == "R") || (t == UnmanagedPointer(u) && p == "P")
    ensures DecodeType(TypeSpelling(t, st, thrifty) + rest, st) == Some((t, rest, TypeText(t, st).1))
    decreases t, 0
  {
    hide DecodeName, ParseNumber, NameText, Decimal;
    var s := TypeSpelling(t, st, thrifty) + rest;
    assert s[0] == p[0] && s[1..] == TypeSpelling(u, st, thrifty) + rest;
    TypeSpellingDecodes(u, st, thrifty, rest);
  }

  lemma {:induction false} GenericDecodes(def: Name, args: Types, st: State, thrifty: bool, rest: string)
    requires GoodName(def) && GoodTypes(args) && Ends(rest)
    ensures var t := Generic(def, args);
            DecodeType(TypeSpelling(t, st, thrifty) + rest, st) == Some((t, rest, TypeText(t, st).1))
    decreases args, 1
  {
    hide DecodeName, ParseNumber, NameText, Decimal, NameSpelling, SimpleText, SimpleLetter, SimpleExtended, DecodeExtended, TypesText, TypesSpelling, DecodeTypes;
    var d := NameSpelling(def, st, thrifty);
    var st1 := NameText(def, st).1;
    var s := TypeSpelling(Generic(def, args), st, thrifty) + rest;
    var list := TypesSpelling(args, st1, thrifty) + rest;
    var mid := "_G" + Decimal(Count(args)) + list;
    assert s == d + mid;
    NameStart(def, st, thrifty);
    SpellingDecodes(def, st, thrifty, mid);
    assert s[0] == d[0] && SimpleLetter(d[0]) == None by { NameLetters(d[0]); }
    assert mid[..2] == "_G" && mid[2..] == Decimal(Count(args)) + list;
    EndsBeforeTypes(args, st1, thrifty, rest);
    NumberDecodes(Count(args), list);
    TypesDecode(args, st1, thrifty, rest);
  }

  lemma {:induction false} TypesDecode(ts: Types, st: State, thrifty: bool, rest: string)
    requires GoodTypes(ts) && Ends(rest)
    ensures DecodeTypes(Count(ts), TypesSpelling(ts, st, thrifty) + rest, st) == Some((ts, rest, TypesText(ts, st).1))
    decreases ts, 0
  {
    if ts.Nil? {
      assert "" + rest == rest;
    } else {
      var st1 := TypeText(ts.head, st).1;
      var tail := TypesSpelling(ts.tail, st1, thrifty) + rest;
      assert TypesSpelling(ts, st, thrifty) + rest == TypeSpelling(ts.head, st, thrifty) + tail;
      EndsBeforeTypes(ts.tail, st1, thrifty, rest);
      TypeSpellingDecodes(ts.head, st, thrifty, tail);
      TypesDecode(ts.tail, st1, thrifty, rest);
    }
  }

  /** A type decodes in front of anything that cannot be mistaken for its continuation. */
  lemma TypeDecodes(t: Type, st: State, rest: string)
    requires GoodType(t) && Ends(rest)
    ensures DecodeType(TypeText(t, st).0 + rest, st) == Some((t, rest, TypeText(t, st).1))
  {
    hide *;
    TypeSpellingDecodes(t, st, false, rest);
    PlainSpelling(t, st);
  }

  // ---------------------------------------------------------------------- methods

  predicate GoodMethod(m: Method) {
    !m.varArgs && !StartsWithDigit(m.name) && GoodType(m.declaring) && GoodType(m.returns_) && GoodTypes(m.parameters)
  }

  lemma AfterPrefix(p: string, s: string)
    ensures After(p + s, p) == Some(s)
  {
  }

  /** How many parameters are written down. */
  function Written(g: Signature): nat {
    Count(g.parameters) + if g.implicitThis then 1 else 0
  }

  /** The text from the parameter count on. */
  function ParametersSpelling(g: Signature, st: State, thrifty: bool): string {
    "_P" + Decimal(Written(g)) + (if g.implicitThis then "u1t" else "") + TypesSpelling(g.parameters, st, thrifty)
  }

  function ReturnSpelling(g: Signature, st: State, thrifty: bool): string {
    "_R" + TypeSpelling(g.returns_, st, thrifty) + ParametersSpelling(g, TypeText(g.returns_, st).1, thrifty)
  }

  function MethodSpelling(g: Signature, thrifty: bool): string {
    var st := State(None, None);
    "_Z" + TypeSpelling(g.declaring, st, thrifty) + "M_0_" + WithLength(EncodeString(g.name))
    + ReturnSpelling(g, TypeText(g.declaring, st).1, thrifty)
  }

  predicate GoodSignature(g: Signature) {
    !StartsWithDigit(g.name) && GoodType(g.declaring) && GoodType(g.returns_) && GoodTypes(g.parameters)
  }

  lemma ParametersDecode(g: Signature, st: State, thrifty: bool)
    requires GoodSignature(g)
    ensures DecodeParameters(g.declaring, g.name, g.returns_, ParametersSpelling(g, st, thrifty), st) == Some(g)
  {
    hide ParseNumber, Decimal, DecodeType, TypeText, TypeSpelling;
    var types := TypesSpelling(g.parameters, st, thrifty);
    var list := (if g.implicitThis then "u1t" else "") + types;
    assert ParametersSpelling(g, st, thrifty) == "_P" + (Decimal(Written(g)) + list);
    AfterPrefix("_P", Decimal(Written(g)) + list);
    EndsBeforeTypes(g.parameters, st, thrifty, "");
    assert types + "" == types;
    NumberDecodes(Written(g), list);
    TypesDecode(g.parameters, st, thrifty, "");
    if g.implicitThis {
      AfterPrefix("u1t", types);
    } else {
      assert list == types;
      NotThis(g.parameters, st, thrifty);
    }
  }

  lemma ThirdLetter(t: Type, st: State, thrifty: bool)
    requires GoodType(t)
    ensures var s := TypeSpelling(t, st, thrifty); s != [] && (s[0] == 'u' ==> |s| >= 3 && s[2] != 't')
  {
    hide NameText, Decimal, NameSpelling;
    TypeStart(t, st, thrifty);
    match t
    case Generic(def, _) => NameStart(def, st, thrifty);
    case Named(def) => NameStart(def, st, thrifty);
    case _ =>
  }

  /** No parameter list begins with the marker of the implicit `this`. */
  lemma NotThis(ts: Types, st: State, thrifty: bool)
    requires GoodTypes(ts)
    ensures After(TypesSpelling(ts, st, thrifty), "u1t") == None
  {
    hide TypeText, TypeSpelling;
    if ts.Cons? {
      var s, h := TypesSpelling(ts, st, thrifty), TypeSpelling(ts.head, st, thrifty);
      ThirdLetter(ts.head, st, thrifty);
      assert s[0] == h[0];
      if |s| >= 3 {
        var p := s[..3];
        assert p[0] == s[0] && p[2] == s[2];
        assert s[0] == 'u' ==> s[2] == h[2];
      }
    }
  }

  lemma ReturnDecodes(g: Signature, st: State, thrifty: bool)
    requires GoodSignature(g)
    ensures DecodeReturn(g.declaring, g.name, ReturnSpelling(g, st, thrifty), st) == Some(g)
  {
    hide DecodeType, TypeText, TypeSpelling, DecodeParameters, ParametersSpelling, GoodType, GoodTypes;
    var st2 := TypeText(g.returns_, st).1;
    var s2 := ParametersSpelling(g, st2, thrifty);
    var s1 := TypeSpelling(g.returns_, st, thrifty) + s2;
    assert ReturnSpelling(g, st, thrifty) == "_R" + s1;
    AfterPrefix("_R", s1);
    ParametersEnd(g, st2, thrifty);
    TypeSpellingDecodes(g.returns_, st, thrifty, s2);
    ParametersDecode(g, st2, thrifty);
  }

  /** Either spelling of a signature decodes to all of it. */
  lemma MethodSpellingDecodes(g: Signature, thrifty: bool)
    requires GoodSignature(g)
    ensures DecodeMethod(MethodSpelling(g, thrifty)) == Some(g)
  {
    hide DecodeType, TypeText, TypeSpelling, ParseText, WithLength, EncodeString, DecodeString, DecodeReturn, ReturnSpelling, GoodType, GoodTypes;
    var st := State(None, None);
    var st2 := TypeText(g.declaring, st).1;
    var name := EncodeString(g.name);
    var s4 := ReturnSpelling(g, st2, thrifty);
    var s3 := WithLength(name) + s4;
    var s2 := "M_0_" + s3;
    var s1 := TypeSpelling(g.declaring, st, thrifty) + s2;
    assert MethodSpelling(g, thrifty) == "_Z" + s1;
    AfterPrefix("_Z", s1);
    assert s2[0] == 'M';
    TypeSpellingDecodes(g.declaring, st, thrifty, s2);
    AfterPrefix("M_0_", s3);
    EncodeStart(g.name);
    EncodeStringInverse(g.name);
    TextDecodes(name, s4);
    ReturnDecodes(g, st2, thrifty);
  }

  lemma ParametersEnd(g: Signature, st: State, thrifty: bool)
    ensures Ends(ParametersSpelling(g, st, thrifty))
  {
    hide Decimal, TypesSpelling;
    var s := ParametersSpelling(g, st, thrifty);
    assert s[0] == '_' && s[1] == 'P';
  }

  lemma MethodIsSpelled(m: Method)
    ensures MethodText(m) == MethodSpelling(SignatureOf(m), false)
  {
    hide TypeText, TypesText, TypeSpelling, TypesSpelling, WithLength, EncodeString, Decimal;
    var d := TypeText(m.declaring, State(None, None));
    var r := TypeText(m.returns_, d.1);
    PlainSpelling(m.declaring, State(None, None));
    PlainSpelling(m.returns_, d.1);
    PlainSpellings(m.parameters, r.1);
  }

  /** The mangled name of a method decodes to everything it encodes. */
  lemma MethodDecodes(m: Method)
    requires GoodMethod(m)
    ensures DecodeMethod(MethodText(m)) == Some(SignatureOf(m))
  {
    hide DecodeMethod, MethodText, MethodSpelling, GoodType, GoodTypes;
    MethodSpellingDecodes(SignatureOf(m), false);
    MethodIsSpelled(m);
  }

  /**
    Mangling is injective: methods with the same symbol have the same declaring type,
    name, return type, `this` and parameters.
   */
  lemma MangleInjective(m: Method, n: Method)
    requires GoodMethod(m) && GoodMethod(n) && MethodText(m) == MethodText(n)
    ensures SignatureOf(m) == SignatureOf(n)
  {
    MethodDecodes(m);
    MethodDecodes(n);
  }
}
