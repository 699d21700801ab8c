/**
  Symbol names of methods (libstdcs/Mangler.cs): a compressed encoding whose text depends on the
  module and namespace named last, and a decoder that keeps the same state.
 */
module Mangling {

  import opened Options

  datatype Name = Name(mod: string, nspace: string, name: string)

  datatype Type =
    | Boxed(inner: Type)
    | ManagedPointer(inner: Type)
    | UnmanagedPointer(inner: Type)
    | ZeroBasedArray(elem: Type)
    | Simple(code: nat)
    | Generic(def: Name, args: Types)
    | TypeParameter(index: nat)
    | MethodParameter(index: nat)
    | Named(def: Name)

  datatype Types = Nil | Cons(head: Type, tail: Types)

  datatype Method = Method(declaring: Type, varArgs: bool, hasThis: bool, explicitThis: bool,
                           name: string, returns_: Type, parameters: Types)

  // ------------------------------------------------------------------ text helpers

  predicate IsDigit(c: char) {
    '0' <= c <= '9'
  }

  predicate StartsWithDigit(s: string) {
    s != [] && IsDigit(s[0])
  }

  function Digit(n: nat): char
    requires n < 10
  {
    ('0' as int + n) as char
  }

  /** Decimal digits, without leading zeros. */
  function Decimal(n: nat): (s: string)
    ensures s != [] && forall i :: 0 <= i < |s| ==> IsDigit(s[i])
  {
    if n < 10 then [Digit(n)] else Decimal(n / 10) + [Digit(n % 10)]
  }

  predicate Special(c: char) {
    c == '+' || c == '-' || c == '.' || c == '#'
  }

  /** `#` and the two hexadecimal digits of the character. */
  function Escape(c: char): string {
    if c == '+' then "#2B" else if c == '-' then "#2D" else if c == '.' then "#2E" else "#23"
  }

  function EncodeAll(p: string): string {
    if p == [] then [] else (if Special(p[0]) then Escape(p[0]) else [p[0]]) + EncodeAll(p[1..])
  }

  /** Text without special characters is kept as it is, other text is escaped. */
  function EncodeString(p: string): string {
    if exists i :: 0 <= i < |p| && Special(p[i]) then EncodeAll(p) else p
  }

  function Unescape(hex: string): Option<char> {
    if hex == "2B" then Some('+') else if hex == "2D" then Some('-')
    else if hex == "2E" then Some('.') else if hex == "23" then Some('#') else None
  }

  /** Only what the escaping writes: no special character by itself, no other escape. */
  function DecodeString(s: string): Option<string>
    decreases |s|
  {
    if s == [] then Some([])
    else if s[0] == '#' then
      if |s| < 3 then None
      else
        match (Unescape(s[1..3]), DecodeString(s[3..]))
        case (Some(c), Some(p)) => Some([c] + p)
        case _ => None
    else if Special(s[0]) then None
    else
      match DecodeString(s[1..])
      case None => None
      case Some(p) => Some([s[0]] + p)
  }

  lemma {:induction false} EncodePlain(p: string)
    requires forall i :: 0 <= i < |p| ==> !Special(p[i])
    ensures EncodeAll(p) == p
  {
    if p != [] {
      EncodePlain(p[1..]);
    }
  }

  lemma EscapeOnce(c: char, rest: string)
    requires Special(c) && DecodeString(rest).Some?
    ensures DecodeString(Escape(c) + rest) == Some([c] + DecodeString(rest).value)
  {
    var s := Escape(c) + rest;
    assert s[0] == '#' && s[3..] == rest;
    assert s[1..3] == Escape(c)[1..];
  }

  lemma {:induction false} DecodeEncodeAll(p: string)
    ensures DecodeString(EncodeAll(p)) == Some(p)
  {
    if p != [] {
      var rest := EncodeAll(p[1..]);
      DecodeEncodeAll(p[1..]);
      assert p == [p[0]] + p[1..];
      if Special(p[0]) {
        EscapeOnce(p[0], rest);
      } else {
        assert ([p[0]] + rest)[1..] == rest;
      }
    }
  }

  lemma {:induction false} EncodeDecoded(s: string)
    requires DecodeString(s).Some?
    ensures s == EncodeAll(DecodeString(s).value)
    decreases |s|
  {
    if s != [] {
      var p := DecodeString(s).value;
      if s[0] == '#' {
        EncodeDecoded(s[3..]);
        assert p[1..] == DecodeString(s[3..]).value;
        assert s == s[..1] + s[1..3] + s[3..];
        assert Escape(p[0]) == "#" + s[1..3];
      } else {
        EncodeDecoded(s[1..]);
        assert p[1..] == DecodeString(s[1..]).value;
      }
    }
  }

  /** Escaping can be undone, and nothing but the escaped text gives the text back. */
  lemma EncodeStringInverse(p: string)
    ensures DecodeString(EncodeString(p)) == Some(p)
    ensures forall s :: DecodeString(s) == Some(p) ==> s == EncodeString(p)
  {
    hide DecodeString;
    if forall i :: 0 <= i < |p| ==> !Special(p[i]) {
      EncodePlain(p);
    }
    DecodeEncodeAll(p);
    forall s | DecodeString(s) == Some(p)
      ensures s == EncodeString(p)
    {
      EncodeDecoded(s);
    }
  }

  lemma EncodeStart(p: string)
    ensures EncodeString(p) == EncodeAll(p)
    ensures p == [] ==> EncodeString(p) == []
    ensures !StartsWithDigit(p) ==> !StartsWithDigit(EncodeString(p))
  {
    if forall i :: 0 <= i < |p| ==> !Special(p[i]) {
      EncodePlain(p);
    }
  }

  // ---------------------------------------------------------------------- encoding

  /** The module and namespace named last, escaped. */
  datatype State = State(mod: Option<string>, nspace: Option<string>)

  function WithLength(s: string): string {
    Decimal(|s|) + s
  }

  function SimpleText(code: nat): Option<string> {
    match code
    case 1 => Some("v") case 2 => Some("b") case 3 => Some("c") case 4 => Some("a")
    case 5 => Some("h") case 6 => Some("s") case 7 => Some("t") case 8 => Some("i")
    case 9 => Some("j") case 0xa => Some("x") case 0xb => Some("y") case 0xc => Some("f")
    case 0xd => Some("d") case 0xe => Some("u1S") case 0x18 => Some("u1I") case 0x19 => Some("u1U")
    case 0x1c => Some("u1O") case 0x16 => Some("u1T") case 0xfe => Some("u1V")
    case 0xfd => Some("u1P") case 0xfc => Some("u1R")
    case _ => None
  }

  predicate Supported(t: Type) {
    match t
    case Boxed(u) => Supported(u)
    case ManagedPointer(u) => Supported(u)
    case UnmanagedPointer(u) => Supported(u)
    case ZeroBasedArray(u) => Supported(u)
    case Simple(code) => SimpleText(code).Some?
    case Generic(_, args) => AllSupported(args)
    case TypeParameter(_) => true
    case MethodParameter(_) => true
    case Named(_) => true
  }

  predicate AllSupported(ts: Types) {
    ts.Nil? || (Supported(ts.head) && AllSupported(ts.tail))
  }

  function NameText(n: Name, st: State): (string, State) {
    var mod, nspace, name := EncodeString(n.mod), EncodeString(n.nspace), EncodeString(n.name);
    if Some(mod) == st.mod then
      if Some(nspace) == st.nspace then ("V" + WithLength(name), st)
      else ("U" + WithLength(nspace) + WithLength(name), st.(nspace := Some(nspace)))
    else if mod == "mscorlib" then
      ("W" + WithLength(nspace) + WithLength(name), State(Some(mod), Some(nspace)))
    else if mod == "libsupcs" && nspace == "libsupcs" then
      ("X" + WithLength(name), State(Some(mod), Some(nspace)))
    else
      ("N" + WithLength(mod) + WithLength(nspace) + WithLength(name), State(Some(mod), Some(nspace)))
  }

  function Count(ts: Types): nat {
    if ts.Nil? then 0 else 1 + Count(ts.tail)
  }

  function TypeText(t: Type, st: State): (string, State) {
    match t
    case Boxed(u) => var r := TypeText(u, st); ("B" + r.0, r.1)
    case ManagedPointer(u) => var r := TypeText(u, st); ("R" + r.0, r.1)
    case UnmanagedPointer(u) => var r := TypeText(u, st); ("P" + r.0, r.1)
    case ZeroBasedArray(u) => var r := TypeText(u, st); ("u1Z" + r.0, r.1)
    case Simple(code) => (if SimpleText(code).Some? then SimpleText(code).value else "", st)
    case Generic(def, args) =>
      var d := NameText(def, st);
      var a := TypesText(args, d.1);
      (d.0 + "_G" + Decimal(Count(args)) + a.0, a.1)
    case TypeParameter(i) => ("u1G" + Decimal(i), st)
    case MethodParameter(i) => ("u1g" + Decimal(i), st)
    case Named(def) => NameText(def, st)
  }

  function TypesText(ts: Types, st: State): (string, State) {
    if ts.Nil? then ("", st)
    else
      var h := TypeText(ts.head, st);
      var r := TypesText(ts.tail, h.1);
      (h.0 + r.0, r.1)
  }

  predicate ImplicitThis(m: Method) {
    m.hasThis && !m.explicitThis
  }

  function MethodText(m: Method): string {
    var st := State(None, None);
    var d := TypeText(m.declaring, st);
    var r := TypeText(m.returns_, d.1);
    var p := TypesText(m.parameters, r.1);
    "_Z" + d.0 + "M_0_" + WithLength(EncodeString(m.name)) + "_R" + r.0 + "_P"
    + Decimal(Count(m.parameters) + (if ImplicitThis(m) then 1 else 0)) + (if ImplicitThis(m) then "u1t" else "") + p.0
  }

  // ---------------------------------------------------------------------- decoding

  function DigitValue(c: char): nat
    requires IsDigit(c)
  {
    c as int - '0' as int
  }

  function Greedy(s: string, acc: nat): (r: (nat, string))
    ensures |r.1| <= |s|
  {
    if StartsWithDigit(s) then Greedy(s[1..], acc * 10 + DigitValue(s[0])) else (acc, s)
  }

  /** A number; a leading zero stands alone. */
  function ParseNumber(s: string): (r: Option<(nat, string)>)
    ensures r.Some? ==> |r.value.1| < |s|
  {
    if !StartsWithDigit(s) then None
    else if s[0] == '0' then Some((0, s[1..]))
    else Some(Greedy(s[1..], DigitValue(s[0])))
  }

  function ParseText(s: string): (r: Option<(string, string)>)
    ensures r.Some? ==> |r.value.1| < |s|
  {
    match ParseNumber(s)
    case None => None
    case Some((k, rest)) => if |rest| < k then None else Some((rest[..k], rest[k..]))
  }

  function DecodeName(s: string, st: State): (r: Option<(Name, string, State)>)
    ensures r.Some? ==> |r.value.1| < |s|
  {
    if s == [] then None
    else if s[0] == 'V' then
      match ParseText(s[1..])
      case None => None
      case Some((name, rest)) =>
        if st.mod.None? || st.nspace.None? then None else Decoded(st.mod.value, st.nspace.value, name, rest)
    else if s[0] == 'X' then
      match ParseText(s[1..])
      case None => None
      case Some((name, rest)) => Decoded("libsupcs", "libsupcs", name, rest)
    else if s[0] == 'N' then
      match ParseText(s[1..])
      case None => None
      case Some((mod, rest)) => DecodeScoped(mod, rest)
    else if s[0] == 'U' then
      if st.mod.None? then None else DecodeScoped(st.mod.value, s[1..])
    else if s[0] == 'W' then DecodeScoped("mscorlib", s[1..])
    else None
  }

  /** The name with these escaped parts; its module and namespace are now the ones named last. */
  function Decoded(mod: string, nspace: string, name: string, rest: string): (r: Option<(Name, string, State)>)
    ensures r.Some? ==> r.value.1 == rest
  {
    match (DecodeString(mod), DecodeString(nspace), DecodeString(name))
    case (Some(m), Some(s), Some(n)) => Some((Name(m, s, n), rest, State(Some(mod), Some(nspace))))
    case _ => None
  }

  /** A namespace and a name inside a module. */
  function DecodeScoped(mod: string, s: string): (r: Option<(Name, string, State)>)
    ensures r.Some? ==> |r.value.1| < |s|
  {
    match ParseText(s)
    case None => None
    case Some((nspace, rest)) =>
      match ParseText(rest)
      case None => None
      case Some((name, rest')) => Decoded(mod, nspace, name, rest')
  }

  function SimpleLetter(c: char): Option<nat> {
    if c == 'v' then Some(1) else if c == 'b' then Some(2) else if c == 'c' then Some(3) else if c == 'a' then Some(4)
    else if c == 'h' then Some(5) else if c == 's' then Some(6) else if c == 't' then Some(7) else if c == 'i' then Some(8)
    else if c == 'j' then Some(9) else if c == 'x' then Some(0xa) else if c == 'y' then Some(0xb)
    else if c == 'f' then Some(0xc) else if c == 'd' then Some(0xd) else None
  }

  function SimpleExtended(c: char): Option<nat> {
    if c == 'S' then Some(0xe) else if c == 'I' then Some(0x18) else if c == 'U' then Some(0x19)
    else if c == 'O' then Some(0x1c) else if c == 'T' then Some(0x16) else if c == 'V' then Some(0xfe)
    else if c == 'P' then Some(0xfd) else if c == 'R' then Some(0xfc) else None
  }

  function DecodeType(s: string, st: State): (r: Option<(Type, string, State)>)
    ensures r.Some? ==> |r.value.1| < |s|
    decreases |s|, 0
  {
    if s == [] then None
    else if s[0] == 'B' || s[0] == 'R' || s[0] == 'P' then
      match DecodeType(s[1..], st)
      case None => None
      case Some((u, rest, st')) =>
        Some((if s[0] == 'B' then Boxed(u) else if s[0] == 'R' then ManagedPointer(u) else UnmanagedPointer(u), rest, st'))
    else if s[0] == 'u' then
      if |s| < 3 || s[1] != '1' then None else DecodeExtended(s, st)
    else if SimpleLetter(s[0]).Some? then Some((Simple(SimpleLetter(s[0]).value), s[1..], st))
    else
      match DecodeName(s, st)
      case None => None
      case Some((def, rest, st')) =>
        if |rest| >= 2 && rest[..2] == "_G" then
          match ParseNumber(rest[2..])
          case None => None
          case Some((k, rest')) =>
            match DecodeTypes(k, rest', st')
            case None => None
            case Some((args, rest'', st'')) => Some((Generic(def, args), rest'', st''))
        else Some((Named(def), rest, st'))
  }

  /** The types written as `u1` and a letter. */
  function DecodeExtended(s: string, st: State): (r: Option<(Type, string, State)>)
    requires |s| >= 3
    ensures r.Some? ==> |r.value.1| < |s|
    decreases |s| - 1, 1
  {
    if s[2] == 'Z' then
      match DecodeType(s[3..], st)
      case None => None
      case Some((u, rest, st')) => Some((ZeroBasedArray(u), rest, st'))
    else if s[2] == 'G' || s[2] == 'g' then
      match ParseNumber(s[3..])
      case None => None
      case Some((i, rest)) => Some((if s[2] == 'G' then TypeParameter(i) else MethodParameter(i), rest, st))
    else
      match SimpleExtended(s[2])
      case None => None
      case Some(code) => Some((Simple(code), s[3..], st))
  }

  function DecodeTypes(k: nat, s: string, st: State): (r: Option<(Types, string, State)>)
    ensures r.Some? ==> |r.value.1| <= |s|
    decreases |s|, 1
  {
    if k == 0 then Some((Nil, s, st))
    else
      match DecodeType(s, st)
      case None => None
      case Some((t, rest, st')) =>
        match DecodeTypes(k - 1, rest, st')
        case None => None
        case Some((ts, rest', st'')) => Some((Cons(t, ts), rest', st''))
  }

  /** What a mangled name says about a method. */
  datatype Signature = Signature(declaring: Type, name: string, returns_: Type, implicitThis: bool, parameters: Types)

  function SignatureOf(m: Method): Signature {
    Signature(m.declaring, m.name, m.returns_, ImplicitThis(m), m.parameters)
  }

  function After(s: string, prefix: string): Option<string> {
    if |prefix| <= |s| && s[..|prefix|] == prefix then Some(s[|prefix|..]) else None
  }

  function DecodeMethod(s: string): Option<Signature> {
    match After(s, "_Z")
    case None => None
    case Some(s1) =>
      match DecodeType(s1, State(None, None))
      case None => None
      case Some((declaring, s2, st2)) =>
        match After(s2, "M_0_")
        case None => None
        case Some(s3) =>
          match ParseText(s3)
          case None => None
          case Some((name, s4)) =>
            match DecodeString(name)
            case None => None
            case Some(n) => DecodeReturn(declaring, n, s4, st2)
  }

  function DecodeReturn(declaring: Type, name: string, s: string, st: State): Option<Signature> {
    match After(s, "_R")
    case None => None
    case Some(s1) =>
      match DecodeType(s1, st)
      case None => None
      case Some((returns_, s2, st2)) => DecodeParameters(declaring, name, returns_, s2, st2)
  }

  function DecodeParameters(declaring: Type, name: string, returns_: Type, s: string, st: State): Option<Signature> {
    match After(s, "_P")
    case None => None
    case Some(s1) =>
      match ParseNumber(s1)
      case None => None
      case Some((k, s2)) =>
        var this_ := After(s2, "u1t");
        if this_.Some? && k == 0 then None
        else
          match (if this_.Some? then DecodeTypes(k - 1, this_.value, st) else DecodeTypes(k, s2, st))
          case None => None
          case Some((ps, rest, _)) => if rest == [] then Some(Signature(declaring, name, returns_, this_.Some?, ps)) else None
  }
}
