/**
  BNF grammars, the languages they derive, and the removal of immediate left recursion
  (tyc/Parser2.cs).  A token is its value; a token reference stands for any one token.
 */
module Grammar {

  datatype Sym =
    | Entry(name: string)
    | Constant(value: string)
    | TokenRef(token: string)
    | Empty

  type Alt = seq<Sym>
  type Rules = map<string, seq<Alt>>
  type Tokens = seq<string>

  // ------------------------------------------------------------------ derivation

  /** Derivation trees. */
  datatype Tree =
    | Leaf(token: string)
    | Nothing
    | Node(alt: Alt, kids: Forest)

  datatype Forest = Nil | Cons(head: Tree, tail: Forest)

  function Yield(t: Tree): Tokens {
    match t
    case Leaf(token) => [token]
    case Nothing => []
    case Node(_, kids) => Yields(kids)
  }

  function Yields(f: Forest): Tokens {
    match f
    case Nil => []
    case Cons(t, rest) => Yield(t) + Yields(rest)
  }

  /** `t` is a derivation from `s`. */
  predicate Derivation(g: Rules, s: Sym, t: Tree)
    decreases t
  {
    match s
    case Constant(v) => t == Leaf(v)
    case TokenRef(_) => t.Leaf?
    case Empty => t == Nothing
    case Entry(a) => t.Node? && a in g && t.alt in g[a] && Derivations(g, t.alt, t.kids)
  }

  /** The trees of `f` are derivations from the symbols of `alt`, in order. */
  predicate Derivations(g: Rules, alt: Alt, f: Forest)
    decreases f
  {
    match f
    case Nil => alt == []
    case Cons(t, rest) => alt != [] && Derivation(g, alt[0], t) && Derivations(g, alt[1..], rest)
  }

  ghost predicate Derives(g: Rules, s: Sym, w: Tokens) {
    exists t :: Derivation(g, s, t) && Yield(t) == w
  }

  lemma Associate(u: Tokens, v: Tokens, w: Tokens)
    ensures u + v + w == u + (v + w)
  {
  }

  ghost function Size(t: Tree): nat {
    if t.Node? then 1 + Sizes(t.kids) else 1
  }

  ghost function Sizes(f: Forest): nat {
    if f.Nil? then 0 else Size(f.head) + Sizes(f.tail)
  }

  function Snoc(f: Forest, t: Tree): Forest {
    match f
    case Nil => Cons(t, Nil)
    case Cons(u, rest) => Cons(u, Snoc(rest, t))
  }

  lemma {:induction false} SnocYields(f: Forest, t: Tree)
    ensures Yields(Snoc(f, t)) == Yields(f) + Yield(t)
    ensures Sizes(Snoc(f, t)) == Sizes(f) + Size(t)
  {
    if f.Cons? {
      SnocYields(f.tail, t);
    }
  }

  lemma {:induction false} SnocDerivations(g: Rules, alt: Alt, s: Sym, f: Forest, t: Tree)
    requires Derivations(g, alt, f) && Derivation(g, s, t)
    ensures Derivations(g, alt + [s], Snoc(f, t))
  {
    if f.Cons? {
      SnocDerivations(g, alt[1..], s, f.tail, t);
      assert (alt + [s])[1..] == alt[1..] + [s];
    }
  }

  /** A derivation for `alt s` splits into one for `alt` and one from `s`. */
  lemma {:induction false} SplitLast(g: Rules, alt: Alt, s: Sym, f: Forest) returns (init: Forest, last: Tree)
    requires Derivations(g, alt + [s], f)
    ensures Derivations(g, alt, init) && Derivation(g, s, last) && f == Snoc(init, last)
    decreases f
  {
    if alt == [] {
      assert (alt + [s])[1..] == [];
      init, last := Nil, f.head;
    } else {
      assert (alt + [s])[1..] == alt[1..] + [s];
      init, last := SplitLast(g, alt[1..], s, f.tail);
      init := Cons(f.head, init);
    }
  }

  // -------------------------------------------------------------- transformation

  predicate StartsWith(alt: Alt, name: string) {
    |alt| > 0 && alt[0] == Entry(name)
  }

  /** The alternatives that begin with the rule's own name, and those that do not. */
  function Recursive(alts: seq<Alt>, name: string): seq<Alt> {
    if alts == [] then []
    else (if StartsWith(alts[0], name) then [alts[0]] else []) + Recursive(alts[1..], name)
  }

  function NonRecursive(alts: seq<Alt>, name: string): seq<Alt> {
    if alts == [] then []
    else (if StartsWith(alts[0], name) then [] else [alts[0]]) + NonRecursive(alts[1..], name)
  }

  lemma {:induction false} Grouping(alts: seq<Alt>, name: string)
    ensures forall alt :: alt in Recursive(alts, name) <==> alt in alts && StartsWith(alt, name)
    ensures forall alt :: alt in NonRecursive(alts, name) <==> alt in alts && !StartsWith(alt, name)
  {
    if alts != [] {
      Grouping(alts[1..], name);
      assert alts == [alts[0]] + alts[1..];
    }
  }

  function Prime(name: string): string {
    name + "_"
  }

  predicate LeftRecursive(g: Rules, name: string) {
    name in g && Recursive(g[name], name) != []
  }

  /** `A -> nbce A_` for each alternative that does not begin with `A`. */
  function HeadAlts(alts: seq<Alt>, prime: string): seq<Alt> {
    seq(|alts|, i requires 0 <= i < |alts| => alts[i] + [Entry(prime)])
  }

  /** `A_ -> empty | rest A_` for each alternative `A rest`. */
  function TailAlts(alts: seq<Alt>, prime: string): seq<Alt>
    requires forall alt :: alt in alts ==> |alt| > 0
  {
    [[Empty]] + seq(|alts|, i requires 0 <= i < |alts| => alts[i][1..] + [Entry(prime)])
  }

  function PrimedNames(g: Rules): set<string> {
    set a | a in g && LeftRecursive(g, a) :: Prime(a)
  }

  function NewRule(g: Rules, n: string): seq<Alt>
    requires n in g.Keys + PrimedNames(g)
  {
    if n in g then
      if LeftRecursive(g, n) then HeadAlts(NonRecursive(g[n], n), Prime(n)) else g[n]
    else
      var a := n[..|n| - 1];
      assert n in PrimedNames(g);
      Grouping(g[a], a);
      TailAlts(Recursive(g[a], a), n)
  }

  /** The rules after immediate left recursion has been removed from each of them. */
  function Transform(g: Rules): Rules {
    map n | n in g.Keys + PrimedNames(g) :: NewRule(g, n)
  }

  /** The primed names are new: neither defined nor referred to. */
  ghost predicate Fresh(g: Rules) {
    forall p :: p in PrimedNames(g) ==>
      p !in g && forall a, alt :: a in g && alt in g[a] ==> Entry(p) !in alt
  }

  ghost predicate Original(g: Rules, alt: Alt) {
    forall p :: p in PrimedNames(g) ==> Entry(p) !in alt
  }

  lemma OriginalAlts(g: Rules, a: string, alt: Alt)
    requires Fresh(g) && a in g && alt in g[a]
    ensures Original(g, alt)
  {
  }

  // --------------------------------------------- what the new alternatives look like

  lemma HeadShape(g: Rules, a: string, alt: Alt)
    requires LeftRecursive(g, a) && a in Transform(g)
    ensures alt in g[a] && !StartsWith(alt, a) ==> alt + [Entry(Prime(a))] in Transform(g)[a]
  {
    var base := NonRecursive(g[a], a);
    Grouping(g[a], a);
    if alt in base {
      var i :| 0 <= i < |base| && base[i] == alt;
      assert HeadAlts(base, Prime(a))[i] == alt + [Entry(Prime(a))];
    }
  }

  lemma HeadOrigin(g: Rules, a: string, alt: Alt) returns (base: Alt)
    requires LeftRecursive(g, a) && alt in Transform(g)[a]
    ensures base in g[a] && !StartsWith(base, a) && alt == base + [Entry(Prime(a))]
  {
    var bases := NonRecursive(g[a], a);
    Grouping(g[a], a);
    var i :| 0 <= i < |bases| && alt == HeadAlts(bases, Prime(a))[i];
    base := bases[i];
  }

  lemma PrimeRule(g: Rules, a: string)
    requires Fresh(g) && LeftRecursive(g, a)
    ensures Prime(a) in PrimedNames(g) && Prime(a) in Transform(g) && Prime(a) !in g
    ensures forall alt :: alt in Recursive(g[a], a) ==> |alt| > 0
    ensures Transform(g)[Prime(a)] == TailAlts(Recursive(g[a], a), Prime(a))
  {
    Grouping(g[a], a);
    assert Prime(a)[..|Prime(a)| - 1] == a;
  }

  lemma TailShape(g: Rules, a: string, alt: Alt)
    requires Fresh(g) && LeftRecursive(g, a)
    ensures Prime(a) in Transform(g) && [Empty] in Transform(g)[Prime(a)]
    ensures alt in g[a] && StartsWith(alt, a) ==> alt[1..] + [Entry(Prime(a))] in Transform(g)[Prime(a)]
  {
    PrimeRule(g, a);
    Grouping(g[a], a);
    TailContains(Recursive(g[a], a), Prime(a), alt);
  }

  lemma TailContains(recs: seq<Alt>, prime: string, rec: Alt)
    requires forall r :: r in recs ==> |r| > 0
    ensures [Empty] in TailAlts(recs, prime)
    ensures rec in recs ==> rec[1..] + [Entry(prime)] in TailAlts(recs, prime)
  {
    var tails := TailAlts(recs, prime);
    assert tails[0] == [Empty];
    if rec in recs {
      var i :| 0 <= i < |recs| && recs[i] == rec;
      assert tails[i + 1] == rec[1..] + [Entry(prime)];
    }
  }

  lemma TailOrigin(g: Rules, a: string, alt: Alt) returns (rec: Alt)
    requires Fresh(g) && LeftRecursive(g, a) && Prime(a) in Transform(g) && alt in Transform(g)[Prime(a)]
    ensures alt == [Empty] || (rec in g[a] && StartsWith(rec, a) && alt == rec[1..] + [Entry(Prime(a))])
  {
    PrimeRule(g, a);
    rec := TailMember(Recursive(g[a], a), Prime(a), alt);
    Grouping(g[a], a);
  }

  lemma TailMember(recs: seq<Alt>, prime: string, alt: Alt) returns (rec: Alt)
    requires (forall r :: r in recs ==> |r| > 0) && alt in TailAlts(recs, prime)
    ensures alt == [Empty] || (rec in recs && alt == rec[1..] + [Entry(prime)])
  {
    var tails := TailAlts(recs, prime);
    var i :| 0 <= i < |tails| && tails[i] == alt;
    rec := if i == 0 then [] else recs[i - 1];
  }

  // ----------------------------------- derivations from `A` and `A_` in the new rules

  lemma EmptyForest(g: Rules, f: Forest)
    requires Derivations(g, [Empty], f)
    ensures f == Cons(Nothing, Nil)
  {
    var e: Alt := [Empty];
    assert e[1..] == [];
    assert Derivation(g, e[0], f.head) && Derivations(g, e[1..], f.tail);
  }

  /** A derivation from `A_` is empty, or one of `rest` followed by a smaller one from `A_`. */
  lemma TailUnfold(g: Rules, g': Rules, a: string, t: Tree) returns (rec: Alt, x: Forest, t': Tree)
    requires Fresh(g) && LeftRecursive(g, a) && g' == Transform(g) && Derivation(g', Entry(Prime(a)), t)
    ensures t.alt == [Empty] ==> Yield(t) == []
    ensures t.alt != [Empty] ==>
      && rec in g[a] && StartsWith(rec, a) && Derivations(g', rec[1..], x) && Derivation(g', Entry(Prime(a)), t')
      && Yield(t) == Yields(x) + Yield(t') && Sizes(x) + Size(t') < Size(t)
  {
    x, t' := Nil, Nothing;
    rec := TailOrigin(g, a, t.alt);
    if t.alt != [Empty] {
      x, t' := SplitLast(g', rec[1..], Entry(Prime(a)), t.kids);
      SnocYields(x, t');
    } else {
      EmptyForest(g', t.kids);
    }
  }

  lemma TailNil(g: Rules, g': Rules, a: string) returns (t: Tree)
    requires Fresh(g) && LeftRecursive(g, a) && g' == Transform(g)
    ensures Derivation(g', Entry(Prime(a)), t) && Yield(t) == []
  {
    TailShape(g, a, []);
    t := Node([Empty], Cons(Nothing, Nil));
  }

  lemma TailCons(g: Rules, g': Rules, a: string, rec: Alt, x: Forest, t: Tree) returns (r: Tree)
    requires Fresh(g) && LeftRecursive(g, a) && g' == Transform(g) && rec in g[a] && StartsWith(rec, a)
    requires Derivations(g', rec[1..], x) && Derivation(g', Entry(Prime(a)), t)
    ensures Derivation(g', Entry(Prime(a)), r) && Yield(r) == Yields(x) + Yield(t)
  {
    TailShape(g, a, rec);
    SnocDerivations(g', rec[1..], Entry(Prime(a)), x, t);
    SnocYields(x, t);
    r := Node(rec[1..] + [Entry(Prime(a))], Snoc(x, t));
  }

  /** A derivation from `A` is one of a base alternative followed by one from `A_`. */
  lemma HeadUnfold(g: Rules, g': Rules, a: string, t: Tree) returns (base: Alt, x: Forest, t': Tree)
    requires LeftRecursive(g, a) && g' == Transform(g) && Derivation(g', Entry(a), t)
    ensures base in g[a] && !StartsWith(base, a)
    ensures Derivations(g', base, x) && Derivation(g', Entry(Prime(a)), t')
    ensures Yield(t) == Yields(x) + Yield(t') && Sizes(x) + Size(t') < Size(t)
  {
    base := HeadOrigin(g, a, t.alt);
    x, t' := SplitLast(g', base, Entry(Prime(a)), t.kids);
    SnocYields(x, t');
  }

  lemma HeadBuild(g: Rules, g': Rules, a: string, base: Alt, x: Forest, t: Tree) returns (r: Tree)
    requires LeftRecursive(g, a) && g' == Transform(g) && base in g[a] && !StartsWith(base, a)
    requires Derivations(g', base, x) && Derivation(g', Entry(Prime(a)), t)
    ensures Derivation(g', Entry(a), r) && Yield(r) == Yields(x) + Yield(t)
  {
    HeadShape(g, a, base);
    SnocDerivations(g', base, Entry(Prime(a)), x, t);
    SnocYields(x, t);
    r := Node(base + [Entry(Prime(a))], Snoc(x, t));
  }

  // ------------------------------------------------------- every derivation survives

  /** `A_` derives `s` and `rest` derives `v`, so `A_` derives `s v`. */
  lemma {:induction false} TailAppend(g: Rules, g': Rules, a: string, rec: Alt, t: Tree, v: Forest) returns (r: Tree)
    requires Fresh(g) && LeftRecursive(g, a) && g' == Transform(g) && rec in g[a] && StartsWith(rec, a)
    requires Derivation(g', Entry(Prime(a)), t) && Derivations(g', rec[1..], v)
    ensures Derivation(g', Entry(Prime(a)), r) && Yield(r) == Yield(t) + Yields(v)
    decreases Size(t)
  {
    var rec', x, t' := TailUnfold(g, g', a, t);
    if t.alt == [Empty] {
      r := TailNil(g, g', a);
      r := TailCons(g, g', a, rec, v, r);
    } else {
      r := TailAppend(g, g', a, rec, t', v);
      r := TailCons(g, g', a, rec', x, r);
      Associate(Yields(x), Yield(t'), Yields(v));
    }
  }

  lemma {:induction false} Forward(g: Rules, g': Rules, s: Sym, t: Tree) returns (r: Tree)
    requires Fresh(g) && g' == Transform(g) && Original(g, [s]) && Derivation(g, s, t)
    ensures Derivation(g', s, r) && Yield(r) == Yield(t)
    decreases t
  {
    r := t;
    if s.Entry? {
      OriginalAlts(g, s.name, t.alt);
      if LeftRecursive(g, s.name) {
        r := ForwardRecursive(g, g', s.name, t);
      } else {
        var f := Forwards(g, g', t.alt, t.kids);
        r := Node(t.alt, f);
      }
    }
  }

  lemma {:induction false} ForwardRecursive(g: Rules, g': Rules, a: string, t: Tree) returns (r: Tree)
    requires Fresh(g) && g' == Transform(g) && LeftRecursive(g, a) && Derivation(g, Entry(a), t)
    ensures Derivation(g', Entry(a), r) && Yield(r) == Yield(t)
    decreases t, 0
  {
    OriginalAlts(g, a, t.alt);
    if StartsWith(t.alt, a) {
      r := ForwardRecursive(g, g', a, t.kids.head);
      var v := Forwards(g, g', t.alt[1..], t.kids.tail);
      var base, x, t' := HeadUnfold(g, g', a, r);
      Associate(Yields(x), Yield(t'), Yields(v));
      t' := TailAppend(g, g', a, t.alt, t', v);
      r := HeadBuild(g, g', a, base, x, t');
    } else {
      var f := Forwards(g, g', t.alt, t.kids);
      r := TailNil(g, g', a);
      r := HeadBuild(g, g', a, t.alt, f, r);
    }
  }

  lemma {:induction false} Forwards(g: Rules, g': Rules, alt: Alt, f: Forest) returns (r: Forest)
    requires Fresh(g) && g' == Transform(g) && Original(g, alt) && Derivations(g, alt, f)
    ensures Derivations(g', alt, r) && Yields(r) == Yields(f)
    decreases f
  {
    r := Nil;
    if f.Cons? {
      var t := Forward(g, g', alt[0], f.head);
      r := Forwards(g, g', alt[1..], f.tail);
      r := Cons(t, r);
    }
  }

  // ------------------------------------------------------- and none is added

  lemma {:induction false} Backward(g: Rules, g': Rules, s: Sym, t: Tree) returns (r: Tree)
    requires Fresh(g) && g' == Transform(g) && Original(g, [s]) && Derivation(g', s, t)
    ensures Derivation(g, s, r) && Yield(r) == Yield(t)
    decreases Size(t), 1
  {
    r := t;
    if s.Entry? {
      var a := s.name;
      assert s in [s] && a in g;
      if LeftRecursive(g, a) {
        var base, x, t' := HeadUnfold(g, g', a, t);
        OriginalAlts(g, a, base);
        x := Backwards(g, g', base, x);
        r := BackwardTail(g, g', a, Node(base, x), t');
      } else {
        OriginalAlts(g, a, t.alt);
        var f := Backwards(g, g', t.alt, t.kids);
        r := Node(t.alt, f);
      }
    }
  }

  lemma {:induction false} Backwards(g: Rules, g': Rules, alt: Alt, f: Forest) returns (r: Forest)
    requires Fresh(g) && g' == Transform(g) && Original(g, alt) && Derivations(g', alt, f)
    ensures Derivations(g, alt, r) && Yields(r) == Yields(f)
    decreases Sizes(f), 2
  {
    r := Nil;
    if f.Cons? {
      var t := Backward(g, g', alt[0], f.head);
      r := Backwards(g, g', alt[1..], f.tail);
      r := Cons(t, r);
    }
  }

  /** What `A_` derives can be appended to anything `A` derives in the old rules. */
  lemma {:induction false} BackwardTail(g: Rules, g': Rules, a: string, u: Tree, t: Tree) returns (r: Tree)
    requires Fresh(g) && g' == Transform(g) && LeftRecursive(g, a)
    requires Derivation(g, Entry(a), u) && Derivation(g', Entry(Prime(a)), t)
    ensures Derivation(g, Entry(a), r) && Yield(r) == Yield(u) + Yield(t)
    decreases Size(t), 0
  {
    var rec, x, t' := TailUnfold(g, g', a, t);
    if t.alt == [Empty] {
      r := u;
    } else {
      OriginalAlts(g, a, rec);
      ghost var y := Yields(x);
      x := Backwards(g, g', rec[1..], x);
      var u' := Node(rec, Cons(u, x));
      r := BackwardTail(g, g', a, u', t');
      Associate(Yield(u), y, Yield(t'));
    }
  }

  /**
    Removing immediate left recursion preserves the language of every nonterminal of the
    original grammar, whatever its alternatives: `A -> A` and rules without a base case
    included.
   */
  lemma LanguagePreserved(g: Rules, a: string, w: Tokens)
    requires Fresh(g) && a in g
    ensures Derives(g, Entry(a), w) <==> Derives(Transform(g), Entry(a), w)
  {
    assert Original(g, [Entry(a)]);
    if Derives(g, Entry(a), w) {
      var t :| Derivation(g, Entry(a), t) && Yield(t) == w;
      var r := Forward(g, Transform(g), Entry(a), t);
    }
    if Derives(Transform(g), Entry(a), w) {
      var t :| Derivation(Transform(g), Entry(a), t) && Yield(t) == w;
      var r := Backward(g, Transform(g), Entry(a), t);
    }
  }
}
