/** Mangled names that other parts of tysos spell out. */
module ManglingSymbols {
  import opened Mangling
  import opened ManglingDecodable
  import opened Options

  lemma Numbers()
    ensures Decimal(4) == "4" && Decimal(5) == "5" && Decimal(6) == "6" && Decimal(7) == "7" && Decimal(9) == "9"
    ensures Decimal(1) == "1" && Decimal(2) == "2" && Decimal(11) == "11" && Decimal(29) == "29"
  {
  }

  lemma Plain(p: string)
    requires forall i :: 0 <= i < |p| ==> !Special(p[i])
    ensures EncodeString(p) == p == EncodeAll(p)
  {
    EncodePlain(p);
  }

  lemma WithDot(p: string, q: string)
    requires forall i :: 0 <= i < |p| ==> !Special(p[i])
    requires forall i :: 0 <= i < |q| ==> !Special(q[i])
    ensures EncodeString(p + "." + q) == p + "#2E" + q
  {
    var s := p + "." + q;
    EncodeStart(s);
    DotWithin(p, q);
  }

  lemma {:induction false} DotWithin(p: string, q: string)
    requires forall i :: 0 <= i < |p| ==> !Special(p[i])
    requires forall i :: 0 <= i < |q| ==> !Special(q[i])
    ensures EncodeAll(p + "." + q) == p + "#2E" + q
  {
    var s := p + "." + q;
    if p == [] {
      EncodePlain(q);
      assert s[1..] == q;
    } else {
      DotWithin(p[1..], q);
      assert s[1..] == p[1..] + "." + q;
      assert p + "#2E" + q == [p[0]] + (p[1..] + "#2E" + q);
    }
  }

  lemma AttributeTexts()
    ensures EncodeString("NullTerminatedListOfAttribute") == "NullTerminatedListOfAttribute"
    ensures WithLength("NullTerminatedListOfAttribute") == "29NullTerminatedListOfAttribute"
  {
    hide EncodeString, Decimal, EncodeAll;
    Numbers();
    Plain("NullTerminatedListOfAttribute");
  }

  lemma SystemTexts()
    ensures EncodeString("System") == "System" && EncodeString("Type") == "Type"
    ensures WithLength("System") == "6System" && WithLength("Type") == "4Type"
  {
    hide EncodeString, Decimal, EncodeAll;
    Numbers();
    Plain("System");
    Plain("Type");
  }

  lemma ConstructorText()
    ensures WithLength(EncodeString(".ctor")) == "7#2Ector"
  {
    hide EncodeString, Decimal, EncodeAll;
    Numbers();
    WithDot("", "ctor");
    assert ".ctor" == "" + "." + "ctor" && "#2Ector" == "" + "#2E" + "ctor";
  }

  lemma AttributeType()
    ensures NameText(Name("libsupcs", "libsupcs", "NullTerminatedListOfAttribute"), State(None, None))
         == ("X29NullTerminatedListOfAttribute", State(Some("libsupcs"), Some("libsupcs")))
  {
    hide EncodeString, WithLength;
    LibsupcsPlain();
    AttributeTexts();
    assert "X" + "29NullTerminatedListOfAttribute" == "X29NullTerminatedListOfAttribute";
  }

  lemma SystemType()
    ensures NameText(Name("mscorlib", "System", "Type"), State(Some("libsupcs"), Some("libsupcs"))).0 == "W6System4Type"
  {
    hide EncodeString, WithLength;
    LibsupcsPlain();
    SystemTexts();
    assert "W" + "6System" + "4Type" == "W6System4Type";
  }

  /** The constructor of an attribute, as the layout tool looks for it. */
  lemma AttributeSymbol()
    ensures var t := Name("libsupcs", "libsupcs", "NullTerminatedListOfAttribute");
            var ps := Cons(Named(Name("mscorlib", "System", "Type")), Nil);
            var m := Method(Named(t), false, true, false, ".ctor", Simple(1), ps);
            MethodText(m) == "_Z" + "X29NullTerminatedListOfAttribute" + "M_0_" + "7#2Ector" + "_R" + "v" + "_P" + "2" + "u1t" + "W6System4Type"
  {
    hide NameText, WithLength, EncodeString, Decimal;
    AttributeType();
    SystemType();
    ConstructorText();
    Numbers();
    var ps := Cons(Named(Name("mscorlib", "System", "Type")), Nil);
    var st := State(Some("libsupcs"), Some("libsupcs"));
    assert Count(ps) == 1;
    assert TypesText(ps, st).0 == "W6System4Type";
  }

  lemma SpinlockTexts()
    ensures EncodeString("tysos") == "tysos" && EncodeString("Monitor") == "Monitor" && EncodeString("spinlockb") == "spinlockb"
    ensures WithLength("tysos") == "5tysos" && WithLength("Monitor") == "7Monitor" && WithLength("spinlockb") == "9spinlockb"
  {
    hide EncodeString, Decimal, EncodeAll;
    Numbers();
    Plain("tysos");
    Plain("Monitor");
    Plain("spinlockb");
  }

  lemma NamespaceText()
    ensures EncodeString("tysos.lib") == "tysos#2Elib" && WithLength("tysos#2Elib") == "11tysos#2Elib"
  {
    hide EncodeString, Decimal, EncodeAll;
    Numbers();
    WithDot("tysos", "lib");
    assert "tysos.lib" == "tysos" + "." + "lib" && "tysos#2Elib" == "tysos" + "#2E" + "lib";
  }

  lemma SpinlockType()
    ensures NameText(Name("tysos", "tysos.lib", "Monitor"), State(None, None)).0 == "N5tysos11tysos#2Elib7Monitor"
  {
    hide EncodeString, WithLength;
    SpinlockTexts();
    NamespaceText();
    assert "N" + "5tysos" + "11tysos#2Elib" + "7Monitor" == "N5tysos11tysos#2Elib7Monitor";
  }

  /** The spin lock that the processor's assembler code defines. */
  lemma SpinlockSymbol()
    ensures var t := Name("tysos", "tysos.lib", "Monitor");
            var m := Method(Named(t), false, false, false, "spinlockb", Simple(1), Cons(Simple(0xb), Nil));
            MethodText(m) == "_Z" + "N5tysos11tysos#2Elib7Monitor" + "M_0_" + "9spinlockb" + "_R" + "v" + "_P" + "1" + "y"
  {
    hide NameText, WithLength, EncodeString, Decimal;
    SpinlockType();
    SpinlockTexts();
    Numbers();
    var ps := Cons(Simple(0xb), Nil);
    assert Count(ps) == 1;
    assert TypesText(ps, NameText(Name("tysos", "tysos.lib", "Monitor"), State(None, None)).1).0 == "y";
  }
}
