/** The mangler itself: a text buffer and the state of libstdcs/Mangler.cs, updated step by step. */
module Mangler {
  import opened Mangling
  import opened Options
  import opened ManglingDecodable
  import opened ManglingShortest

  /** Escapes the special characters, if there are any. */
  method Encode(p: string) returns (r: string)
    ensures r == EncodeString(p)
  {
    if exists i :: 0 <= i < |p| && Special(p[i]) {
      r := "";
      for i := 0 to |p|
        invariant r + EncodeAll(p[i..]) == EncodeAll(p)
      {
        assert p[i..][1..] == p[i + 1..];
        Associate(r, if Special(p[i]) then Escape(p[i]) else [p[i]], EncodeAll(p[i + 1..]));
        if Special(p[i]) {
          r := r + Escape(p[i]);
        } else {
          r := r + [p[i]];
        }
      }
    } else {
      r := p;
    }
  }

  lemma Associate(a: string, b: string, c: string)
    ensures a + b + c == a + (b + c)
  {
  }

  class Builder {
    var sb: string
    var curModule: Option<string>
    var curNspace: Option<string>

    constructor ()
      ensures sb == "_Z" && St() == State(None, None)
    {
      sb, curModule, curNspace := "_Z", None, None;
    }

    ghost function St(): State
      reads this
    {
      State(curModule, curNspace)
    }

    method AppendWithLength(s: string)
      modifies this`sb
      ensures sb == old(sb) + WithLength(s)
    {
      sb := sb + Decimal(|s|);
      sb := sb + s;
    }

    method MangleName(n: Name)
      modifies this
      ensures sb == old(sb) + NameText(n, old(St())).0 && St() == NameText(n, old(St())).1
    {
      hide WithLength, EncodeString;
      var mod := Encode(n.mod);
      var nspace := Encode(n.nspace);
      var name := Encode(n.name);
      if Some(mod) == curModule {
        if Some(nspace) == curNspace {
          sb := sb + "V";
          AppendWithLength(name);
        } else {
          sb := sb + "U";
          AppendWithLength(nspace);
          AppendWithLength(name);
          curNspace := Some(nspace);
        }
      } else if mod == "mscorlib" {
        sb := sb + "W";
        AppendWithLength(nspace);
        AppendWithLength(name);
        curModule, curNspace := Some(mod), Some(nspace);
      } else if mod == "libsupcs" && nspace == "libsupcs" {
        sb := sb + "X";
        AppendWithLength(name);
        curModule, curNspace := Some(mod), Some(nspace);
      } else {
        sb := sb + "N";
        AppendWithLength(mod);
        AppendWithLength(nspace);
        AppendWithLength(name);
        curModule, curNspace := Some(mod), Some(nspace);
      }
    }

    /** Appends a type; fails on a simple type that has no code. */
    method MangleType(t0: Type) returns (ok: bool)
      modifies this
      ensures ok == Supported(t0)
      ensures ok ==> sb == old(sb) + TypeText(t0, old(St())).0 && St() == TypeText(t0, old(St())).1
      decreases t0, 1
    {
      hide NameText, Decimal, SimpleText, TypesText;
      var t := t0;
      while t.Boxed? || t.ManagedPointer? || t.UnmanagedPointer?
        invariant t == t0 || t < t0
        invariant St() == old(St()) && Supported(t) == Supported(t0)
        invariant sb + TypeText(t, St()).0 == old(sb) + TypeText(t0, St()).0
        invariant TypeText(t, St()).1 == TypeText(t0, St()).1
        decreases t
      {
        sb := sb + if t.Boxed? then "B" else if t.ManagedPointer? then "R" else "P";
        t := t.inner;
      }
      ok := MangleCore(t);
    }

    /** A type without pointer or box in front. */
    method MangleCore(t: Type) returns (ok: bool)
      requires !(t.Boxed? || t.ManagedPointer? || t.UnmanagedPointer?)
      modifies this
      ensures ok == Supported(t)
      ensures ok ==> sb == old(sb) + TypeText(t, old(St())).0 && St() == TypeText(t, old(St())).1
      decreases t, 0
    {
      hide NameText, Decimal, SimpleText;
      match t
      case ZeroBasedArray(elem) =>
        sb := sb + "u1Z";
        ok := MangleType(elem);
      case Simple(code) =>
        ok := SimpleText(code).Some?;
        if ok {
          sb := sb + SimpleText(code).value;
        }
      case Generic(def, args) =>
        MangleName(def);
        sb := sb + "_G";
        sb := sb + Decimal(Count(args));
        ghost var d := NameText(def, old(St()));
        Regroup(old(sb), d.0, "_G", Decimal(Count(args)), TypesText(args, d.1).0);
        ok := MangleTypes(args);
      case TypeParameter(i) =>
        sb := sb + "u1G" + Decimal(i);
        ok := true;
      case MethodParameter(i) =>
        sb := sb + "u1g" + Decimal(i);
        ok := true;
      case Named(def) =>
        MangleName(def);
        ok := true;
    }

    method MangleTypes(ts: Types) returns (ok: bool)
      modifies this
      ensures ok == AllSupported(ts)
      ensures ok ==> sb == old(sb) + TypesText(ts, old(St())).0 && St() == TypesText(ts, old(St())).1
      decreases ts, 0
    {
      ok := true;
      if ts.Cons? {
        ok := MangleType(ts.head);
        if ok {
          ok := MangleTypes(ts.tail);
        }
      }
    }
  }

  lemma Regroup(a: string, b: string, c: string, d: string, e: string)
    ensures a + b + c + d + e == a + (b + c + d + e)
  {
  }

  /** The symbol of a method; none for variable arguments or a type without a code. */
  method MangleMethod(m: Method) returns (r: Option<string>)
    ensures r.Some? <==> !m.varArgs && Supported(m.declaring) && Supported(m.returns_) && AllSupported(m.parameters)
    ensures r.Some? ==> r.value == MethodText(m)
    ensures GoodMethod(m) ==> r.Some? && DecodeMethod(r.value) == Some(SignatureOf(m))
    ensures GoodMethod(m) ==> forall s :: DecodeMethod(s) == Some(SignatureOf(m)) ==> |r.value| <= |s| + Wasted(SignatureOf(m))
  {
    hide TypeText, TypesText, WithLength, EncodeString, Decimal, DecodeMethod, Wasted;
    hide GoodMethod, SignatureOf, Supported, AllSupported;
    if GoodMethod(m) {
      GoodDecodes(m);
    }
    var b := new Builder();
    var ok := b.MangleType(m.declaring);
    if !ok { return None; }
    b.sb := b.sb + "M_";
    if m.varArgs { return None; }
    b.sb := b.sb + "0";
    b.sb := b.sb + "_";
    ghost var d := TypeText(m.declaring, State(None, None));
    assert b.sb == "_Z" + d.0 + "M_0_";
    var name := Encode(m.name);
    b.AppendWithLength(name);
    b.sb := b.sb + "_R";
    ok := b.MangleType(m.returns_);
    if !ok { return None; }
    b.sb := b.sb + "_P";
    var hasThis := false;
    if m.hasThis { hasThis := true; }
    if m.explicitThis { hasThis := false; }
    b.sb := b.sb + Decimal(Count(m.parameters) + (if hasThis then 1 else 0));
    if hasThis { b.sb := b.sb + "u1t"; }
    ok := b.MangleTypes(m.parameters);
    if !ok { return None; }
    r := Some(b.sb);
  }

  lemma GoodDecodes(m: Method)
    requires GoodMethod(m)
    ensures !m.varArgs && Supported(m.declaring) && Supported(m.returns_) && AllSupported(m.parameters)
    ensures DecodeMethod(MethodText(m)) == Some(SignatureOf(m))
    ensures forall s :: DecodeMethod(s) == Some(SignatureOf(m)) ==> |MethodText(m)| <= |s| + Wasted(SignatureOf(m))
  {
    hide MethodText, DecodeMethod, Wasted;
    MethodDecodes(m);
    var shortest := MangledLength(m);
    GoodIsSupported(m.declaring);
    GoodIsSupported(m.returns_);
    GoodAreSupported(m.parameters);
  }

  lemma {:induction false} GoodIsSupported(t: Type)
    requires GoodType(t)
    ensures Supported(t)
  {
    match t
    case Boxed(u) => GoodIsSupported(u);
    case ManagedPointer(u) => GoodIsSupported(u);
    case UnmanagedPointer(u) => GoodIsSupported(u);
    case ZeroBasedArray(u) => GoodIsSupported(u);
    case Generic(_, args) => GoodAreSupported(args);
    case _ =>
  }

  lemma {:induction false} GoodAreSupported(ts: Types)
    requires GoodTypes(ts)
    ensures AllSupported(ts)
  {
    if ts.Cons? {
      GoodIsSupported(ts.head);
      GoodAreSupported(ts.tail);
    }
  }
}
