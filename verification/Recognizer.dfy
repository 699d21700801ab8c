/**
  The grammar processor of tyc/Parser2.cs: it replaces its rules by ones without immediate
  left recursion and recognises token lists by recursive descent.
 */
module Recognizer {
  import opened Grammar
  import opened Options

  // ---------------------------------------------------------- left-recursion removal

  /** The two groups a rule's alternatives are split into, in order. */
  method Group(alts: seq<Alt>, name: string) returns (bce: seq<Alt>, nbce: seq<Alt>)
    ensures bce == Recursive(alts, name) && nbce == NonRecursive(alts, name)
  {
    bce, nbce := [], [];
    for i := 0 to |alts|
      invariant bce + Recursive(alts[i..], name) == Recursive(alts, name)
      invariant nbce + NonRecursive(alts[i..], name) == NonRecursive(alts, name)
    {
      assert alts[i..][1..] == alts[i + 1..];
      if StartsWith(alts[i], name) {
        bce := bce + [alts[i]];
      } else {
        nbce := nbce + [alts[i]];
      }
    }
    assert alts[|alts|..] == [];
  }

  method BuildHead(nbce: seq<Alt>, prime: string) returns (children: seq<Alt>)
    ensures children == HeadAlts(nbce, prime)
  {
    children := [];
    for i := 0 to |nbce|
      invariant children == HeadAlts(nbce, prime)[..i]
    {
      children := children + [nbce[i] + [Entry(prime)]];
    }
  }

  method BuildTail(bce: seq<Alt>, prime: string) returns (children: seq<Alt>)
    requires forall alt :: alt in bce ==> |alt| > 0
    ensures children == TailAlts(bce, prime)
  {
    children := [[Empty]];
    for i := 0 to |bce|
      invariant children == TailAlts(bce, prime)[..i + 1]
    {
      children := children + [bce[i][1..] + [Entry(prime)]];
    }
  }

  function HeadRule(g: Rules, a: string): seq<Alt>
    requires a in g
  {
    if LeftRecursive(g, a) then HeadAlts(NonRecursive(g[a], a), Prime(a)) else g[a]
  }

  function TailRule(g: Rules, a: string): seq<Alt>
    requires a in g
  {
    Grouping(g[a], a);
    TailAlts(Recursive(g[a], a), Prime(a))
  }

  /** The primed names of the rules in `done`. */
  function PrimesOf(g: Rules, done: set<string>): set<string> {
    set a | a in done && LeftRecursive(g, a) :: Prime(a)
  }

  /** `rules` holds what the rules in `done` are replaced by, and nothing else. */
  ghost predicate Collected(g: Rules, done: set<string>, rules: Rules) {
    && done <= g.Keys
    && rules.Keys == done + PrimesOf(g, done)
    && done !! PrimesOf(g, done)
    && (forall a :: a in done ==> rules[a] == HeadRule(g, a))
    && (forall a :: a in done && LeftRecursive(g, a) ==> rules[Prime(a)] == TailRule(g, a))
  }

  lemma PrimeInjective(a: string, b: string)
    requires Prime(a) == Prime(b)
    ensures a == b
  {
    assert a == Prime(a)[..|Prime(a)| - 1] && b == Prime(b)[..|Prime(b)| - 1];
  }

  lemma CollectedOne(g: Rules, done: set<string>, rules: Rules, a: string)
    requires Collected(g, done, rules) && a in g && a !in done && a !in rules
    requires LeftRecursive(g, a) ==> Prime(a) !in rules && Prime(a) != a
    ensures var r := rules[a := HeadRule(g, a)];
            Collected(g, done + {a}, if LeftRecursive(g, a) then r[Prime(a) := TailRule(g, a)] else r)
  {
    var r := rules[a := HeadRule(g, a)];
    var r' := if LeftRecursive(g, a) then r[Prime(a) := TailRule(g, a)] else r;
    var done' := done + {a};
    assert PrimesOf(g, done') == PrimesOf(g, done) + (if LeftRecursive(g, a) then {Prime(a)} else {});
    forall b | b in done' && LeftRecursive(g, b)
      ensures r'[Prime(b)] == TailRule(g, b)
    {
      if b != a {
        if Prime(b) == Prime(a) { PrimeInjective(a, b); }
        assert Prime(b) in PrimesOf(g, done);
      }
    }
  }

  lemma CollectedAll(g: Rules, rules: Rules)
    requires Collected(g, g.Keys, rules)
    ensures rules == Transform(g) && PrimedNames(g) !! g.Keys
  {
    assert PrimesOf(g, g.Keys) == PrimedNames(g);
    forall n | n in rules
      ensures rules[n] == NewRule(g, n)
    {
      if n !in g {
        var a :| a in g && LeftRecursive(g, a) && Prime(a) == n;
        assert n[..|n| - 1] == a;
      }
    }
  }

  class Parser {
    var entries: Rules

    constructor (rules: Rules)
      ensures entries == rules
    {
      entries := rules;
    }

    /** Adds the replacement of one rule; fails when a name is already taken. */
    method RemoveImmediateLeftRecursion(name: string, ghost done: set<string>, newRules: Rules)
      returns (ok: bool, r: Rules)
      requires name in entries && name !in done && Collected(entries, done, newRules)
      ensures ok ==> Collected(entries, done + {name}, r)
      ensures !ok ==> !(PrimedNames(entries) !! entries.Keys)
    {
      r := newRules;
      var bce, nbce := Group(entries[name], name);
      if bce == [] {
        if name in r {
          ok := false;
          assert name in PrimedNames(entries);
        } else {
          CollectedOne(entries, done, newRules, name);
          ok, r := true, r[name := entries[name]];
        }
        return;
      }
      var prime := Prime(name);
      Grouping(entries[name], name);
      var head := BuildHead(nbce, prime);
      var tail := BuildTail(bce, prime);
      assert prime in PrimedNames(entries) && |prime| == |name| + 1;
      if name in r {
        assert name in PrimedNames(entries);
        return false, r;
      }
      if prime in r {
        assert prime in entries by {
          if prime !in done {
            var b :| b in done && LeftRecursive(entries, b) && Prime(b) == prime;
            PrimeInjective(b, name);
          }
        }
        return false, r;
      }
      CollectedOne(entries, done, newRules, name);
      ok, r := true, r[name := head][prime := tail];
    }

    /**
      All rules are replaced at once, or, when a primed name is already in use, the
      rules stay as they were.
     */
    method RemoveLeftRecursion() returns (ok: bool)
      modifies this
      ensures ok <==> PrimedNames(old(entries)) !! old(entries).Keys
      ensures entries == if ok then Transform(old(entries)) else old(entries)
    {
      var newRules: Rules := map[];
      var todo := entries.Keys;
      ghost var done := {};
      while todo != {}
        invariant entries == old(entries)
        invariant todo + done == entries.Keys && todo !! done
        invariant Collected(entries, done, newRules)
        decreases todo
      {
        var name :| name in todo;
        ok, newRules := RemoveImmediateLeftRecursion(name, done, newRules);
        if !ok {
          return;
        }
        todo, done := todo - {name}, done + {name};
      }
      assert done == entries.Keys;
      CollectedAll(entries, newRules);
      ok, entries := true, newRules;
    }
  }

  lemma NothingFromUndefined(g: Rules, alt: Alt, f: Forest)
    requires |alt| > 0 && alt[0].Entry? && alt[0].name !in g
    ensures !Derivations(g, alt, f)
  {
    if f.Cons? {
      assert !Derivation(g, alt[0], f.head);
    }
  }

  /** A reference to an undefined primed name makes the rule change the language. */
  lemma UndefinedPrimeMatters()
    ensures var g: Rules := map["A" := [[Entry("A")]], "B" := [[Entry("A_")]]];
            && PrimedNames(g) !! g.Keys
            && !Derives(g, Entry("B"), []) && Derives(Transform(g), Entry("B"), [])
  {
    var g: Rules := map["A" := [[Entry("A")]], "B" := [[Entry("A_")]]];
    var a: Alt := [Entry("A")];
    assert Recursive([a], "A") == [a] by { assert [a][1..] == []; }
    assert LeftRecursive(g, "A");
    assert Prime("A") == "A_";
    assert !LeftRecursive(g, "B") by { var b: Alt := [Entry("A_")]; assert [b][1..] == []; assert Recursive([b], "B") == []; }
    assert "A_" in PrimedNames(g);
    assert PrimedNames(g) == {"A_"};
    forall t | Derivation(g, Entry("B"), t)
      ensures false
    {
      var b: Alt := [Entry("A_")];
      assert t.alt == b;
      NothingFromUndefined(g, b, t.kids);
    }
    var e := Node([Empty], Cons(Nothing, Nil));
    var g' := Transform(g);
    assert "A_"[..1] == "A";
    assert g'["A_"][0] == [Empty];
    var x: Alt := [Empty];
    assert x[1..] == [];
    assert Derivation(g', Entry("A_"), e);
    var b: Alt := [Entry("A_")];
    assert b[1..] == [];
    assert g'["B"] == [b];
    assert Derivation(g', Entry("B"), Node(b, Cons(e, Nil)));
    assert Yield(Node(b, Cons(e, Nil))) == [];
  }

  // ----------------------------------------------------------------- recognition

  /** Where a match ends; or the recursion went deeper than allowed, or met an unknown name. */
  datatype Match = At(pos: nat) | TooDeep | UnknownEntry

  /** Matching the rest `alt` of an alternative at `x`; a mismatch gives back `start`. */
  function AltEnd(g: Rules, tokens: Tokens, start: nat, x: nat, alt: Alt, depth: nat): (r: Match)
    requires start <= x <= |tokens|
    ensures r.At? ==> start <= r.pos <= |tokens|
    decreases depth, 1, |alt|
  {
    if alt == [] then At(x)
    else if x >= |tokens| then At(start)
    else match alt[0]
      case Constant(v) => if tokens[x] != v then At(start) else AltEnd(g, tokens, start, x + 1, alt[1..], depth)
      case TokenRef(_) => AltEnd(g, tokens, start, x + 1, alt[1..], depth)
      case Empty => AltEnd(g, tokens, start, x, alt[1..], depth)
      case Entry(name) =>
        var m := EntryEnd(g, tokens, x, name, depth);
        if !m.At? then m
        else if m.pos == x then At(start)
        else AltEnd(g, tokens, start, m.pos, alt[1..], depth)
  }

  function EntryEnd(g: Rules, tokens: Tokens, x: nat, name: string, depth: nat): (r: Match)
    requires x <= |tokens|
    ensures r.At? ==> x <= r.pos <= |tokens|
    decreases depth, 0, 0
  {
    if name !in g then UnknownEntry
    else if depth == 0 then TooDeep
    else Longest(g, tokens, x, x, g[name], depth - 1)
  }

  function Longest(g: Rules, tokens: Tokens, x: nat, best: nat, alts: seq<Alt>, depth: nat): (r: Match)
    requires x <= best <= |tokens|
    ensures r.At? ==> best <= r.pos <= |tokens|
    decreases depth, 2, |alts|
  {
    if alts == [] then At(best)
    else
      var m := AltEnd(g, tokens, x, x, alts[0], depth);
      if !m.At? then m
      else Longest(g, tokens, x, if m.pos > best then m.pos else best, alts[1..], depth)
  }

  method ParseEntry(g: Rules, tokens: Tokens, x: nat, name: string, depth: nat) returns (r: Match)
    requires x <= |tokens|
    ensures r == EntryEnd(g, tokens, x, name, depth)
    decreases depth, 0
  {
    if name !in g {
      return UnknownEntry;
    }
    if depth == 0 {
      return TooDeep;
    }
    var maxX, alts := x, g[name];
    for i := 0 to |alts|
      invariant x <= maxX <= |tokens|
      invariant Longest(g, tokens, x, maxX, alts[i..], depth - 1) == EntryEnd(g, tokens, x, name, depth)
    {
      assert alts[i..][0] == alts[i] && alts[i..][1..] == alts[i + 1..];
      r := ParseAlt(g, tokens, x, alts[i], depth - 1);
      if !r.At? {
        return;
      }
      if r.pos > maxX {
        maxX := r.pos;
      }
    }
    r := At(maxX);
  }

  method ParseAlt(g: Rules, tokens: Tokens, start: nat, alt: Alt, depth: nat) returns (r: Match)
    requires start <= |tokens|
    ensures r == AltEnd(g, tokens, start, start, alt, depth)
    decreases depth, 1
  {
    var x := start;
    for i := 0 to |alt|
      invariant start <= x <= |tokens|
      invariant AltEnd(g, tokens, start, x, alt[i..], depth) == AltEnd(g, tokens, start, start, alt, depth)
    {
      assert alt[i..][0] == alt[i] && alt[i..][1..] == alt[i + 1..];
      if x >= |tokens| {
        return At(start);
      }
      match alt[i] {
        case Constant(v) =>
          if tokens[x] != v {
            return At(start);
          }
          x := x + 1;
        case TokenRef(_) =>
          x := x + 1;
        case Entry(name) =>
          var m := ParseEntry(g, tokens, x, name, depth);
          if !m.At? {
            return m;
          }
          if m.pos == x {
            return At(start);
          }
          x := m.pos;
        case Empty =>
      }
    }
    r := At(x);
  }

  // ---- how deep the recursion goes

  /** The entry an alternative begins with, empty symbols aside. */
  function Leading(alt: Alt): (r: Option<string>) {
    if alt == [] then None
    else match alt[0]
      case Empty => Leading(alt[1..])
      case Entry(name) => Some(name)
      case _ => None
  }

  /** No rule reaches itself through leading entries: they go down in rank. */
  ghost predicate Ranked(g: Rules, rank: map<string, nat>, n: nat) {
    forall a :: a in g ==>
      && a in rank && rank[a] < n
      && forall i :: 0 <= i < |g[a]| && Leading(g[a][i]).Some? && Leading(g[a][i]).value in g ==>
           Leading(g[a][i]).value in rank && rank[Leading(g[a][i]).value] < rank[a]
  }

  /** `n` levels for each token left. */
  function Levels(left: nat, n: nat): nat {
    if left == 0 then 0 else n + Levels(left - 1, n)
  }

  lemma {:induction false} FewerLevels(left: nat, more: nat, n: nat)
    requires left < more
    ensures Levels(left, n) + n <= Levels(more, n)
    decreases more
  {
    if left < more - 1 {
      FewerLevels(left, more - 1, n);
    }
  }

  /** In a ranked grammar one level per rule and token is deep enough, and so the recursion ends. */
  lemma {:induction false} DeepEnough(g: Rules, rank: map<string, nat>, n: nat, tokens: Tokens, x: nat, name: string, depth: nat)
    requires Ranked(g, rank, n) && x <= |tokens| && (name in g ==> depth > Levels(|tokens| - x, n) + rank[name])
    ensures EntryEnd(g, tokens, x, name, depth) != TooDeep
    decreases depth, 0, 0
  {
    if name in g {
      DeepLongest(g, rank, n, tokens, x, x, name, 0, depth - 1);
      assert g[name][0..] == g[name];
    }
  }

  lemma {:induction false} DeepLongest(g: Rules, rank: map<string, nat>, n: nat, tokens: Tokens, x: nat, best: nat, name: string, i: nat, depth: nat)
    requires Ranked(g, rank, n) && x <= best <= |tokens| && name in g && i <= |g[name]| && depth >= Levels(|tokens| - x, n) + rank[name]
    ensures Longest(g, tokens, x, best, g[name][i..], depth) != TooDeep
    decreases depth, 2, |g[name]| - i
  {
    if i < |g[name]| {
      var alts := g[name][i..];
      assert alts[0] == g[name][i] && alts[1..] == g[name][i + 1..];
      DeepAlt(g, rank, n, tokens, x, x, alts[0], depth);
      var m := AltEnd(g, tokens, x, x, alts[0], depth);
      if m.At? {
        DeepLongest(g, rank, n, tokens, x, if m.pos > best then m.pos else best, name, i + 1, depth);
      }
    }
  }

  lemma {:induction false} DeepAlt(g: Rules, rank: map<string, nat>, n: nat, tokens: Tokens, start: nat, x: nat, alt: Alt, depth: nat)
    requires Ranked(g, rank, n) && start <= x <= |tokens| && depth >= Levels(|tokens| - x, n)
    requires Leading(alt).Some? && Leading(alt).value in g ==> depth > Levels(|tokens| - x, n) + rank[Leading(alt).value]
    ensures AltEnd(g, tokens, start, x, alt, depth) != TooDeep
    decreases depth, 1, |alt|, 0
  {
    if alt != [] && x < |tokens| {
      match alt[0]
      case Constant(v) => DeepOn(g, rank, n, tokens, start, x, x + 1, alt, depth);
      case TokenRef(_) => DeepOn(g, rank, n, tokens, start, x, x + 1, alt, depth);
      case Empty => DeepAlt(g, rank, n, tokens, start, x, alt[1..], depth);
      case Entry(name) =>
        DeepEnough(g, rank, n, tokens, x, name, depth);
        var m := EntryEnd(g, tokens, x, name, depth);
        if m.At? && m.pos > x {
          DeepOn(g, rank, n, tokens, start, x, m.pos, alt, depth);
        }
    }
  }

  /** Once a token is taken, every rule is within reach again. */
  lemma {:induction false} DeepOn(g: Rules, rank: map<string, nat>, n: nat, tokens: Tokens, start: nat, x: nat, x': nat, alt: Alt, depth: nat)
    requires Ranked(g, rank, n) && start <= x < x' <= |tokens| && depth >= Levels(|tokens| - x, n) && alt != []
    ensures AltEnd(g, tokens, start, x', alt[1..], depth) != TooDeep
    decreases depth, 1, |alt| - 1, 1
  {
    FewerLevels(|tokens| - x', |tokens| - x, n);
    DeepAlt(g, rank, n, tokens, start, x', alt[1..], depth);
  }

  /** A rule that leads to itself is too deep at every depth. */
  lemma {:induction false} NeverDeepEnough(tokens: Tokens, x: nat, depth: nat)
    requires x < |tokens|
    ensures var g: Rules := map["A" := [[Entry("A")]]]; EntryEnd(g, tokens, x, "A", depth) == TooDeep
    decreases depth
  {
    if depth > 0 {
      var g: Rules := map["A" := [[Entry("A")]]];
      var alt: Alt := [Entry("A")];
      NeverDeepEnough(tokens, x, depth - 1);
      assert g["A"] == [alt] && AltEnd(g, tokens, x, x, alt, depth - 1) == TooDeep;
      assert Longest(g, tokens, x, x, [alt], depth - 1) == TooDeep;
    }
  }

  // ---- the result does not depend on the depth allowed, once that suffices

  lemma {:induction false} DeeperEntry(g: Rules, tokens: Tokens, x: nat, name: string, depth: nat, more: nat)
    requires x <= |tokens| && depth <= more && EntryEnd(g, tokens, x, name, depth) != TooDeep
    ensures EntryEnd(g, tokens, x, name, more) == EntryEnd(g, tokens, x, name, depth)
    decreases depth, 0, 0
  {
    if name in g {
      DeeperLongest(g, tokens, x, x, g[name], depth - 1, more - 1);
    }
  }

  lemma {:induction false} DeeperLongest(g: Rules, tokens: Tokens, x: nat, best: nat, alts: seq<Alt>, depth: nat, more: nat)
    requires x <= best <= |tokens| && depth <= more && Longest(g, tokens, x, best, alts, depth) != TooDeep
    ensures Longest(g, tokens, x, best, alts, more) == Longest(g, tokens, x, best, alts, depth)
    decreases depth, 2, |alts|
  {
    if alts != [] {
      DeeperAlt(g, tokens, x, x, alts[0], depth, more);
      var m := AltEnd(g, tokens, x, x, alts[0], depth);
      if m.At? {
        DeeperLongest(g, tokens, x, if m.pos > best then m.pos else best, alts[1..], depth, more);
      }
    }
  }

  lemma {:induction false} DeeperAlt(g: Rules, tokens: Tokens, start: nat, x: nat, alt: Alt, depth: nat, more: nat)
    requires start <= x <= |tokens| && depth <= more && AltEnd(g, tokens, start, x, alt, depth) != TooDeep
    ensures AltEnd(g, tokens, start, x, alt, more) == AltEnd(g, tokens, start, x, alt, depth)
    decreases depth, 1, |alt|
  {
    if alt != [] && x < |tokens| {
      match alt[0]
      case Constant(v) => if tokens[x] == v { DeeperAlt(g, tokens, start, x + 1, alt[1..], depth, more); }
      case TokenRef(_) => DeeperAlt(g, tokens, start, x + 1, alt[1..], depth, more);
      case Empty => DeeperAlt(g, tokens, start, x, alt[1..], depth, more);
      case Entry(name) =>
        DeeperEntry(g, tokens, x, name, depth, more);
        var m := EntryEnd(g, tokens, x, name, depth);
        if m.At? && m.pos != x {
          DeeperAlt(g, tokens, start, m.pos, alt[1..], depth, more);
        }
    }
  }

  // ---- a match that moves is a derivation

  lemma {:induction false} SoundEntry(g: Rules, tokens: Tokens, x: nat, name: string, depth: nat) returns (t: Tree)
    requires x <= |tokens| && EntryEnd(g, tokens, x, name, depth).At? && EntryEnd(g, tokens, x, name, depth).pos > x
    ensures Derivation(g, Entry(name), t) && Yield(t) == tokens[x..EntryEnd(g, tokens, x, name, depth).pos]
    decreases depth, 0, 0
  {
    var alt, f := SoundLongest(g, tokens, x, x, g[name], depth - 1);
    t := Node(alt, f);
  }

  lemma {:induction false} SoundLongest(g: Rules, tokens: Tokens, x: nat, best: nat, alts: seq<Alt>, depth: nat)
    returns (alt: Alt, f: Forest)
    requires x <= best <= |tokens| && Longest(g, tokens, x, best, alts, depth).At?
    requires Longest(g, tokens, x, best, alts, depth).pos > best
    ensures alt in alts && Derivations(g, alt, f)
    ensures Yields(f) == tokens[x..Longest(g, tokens, x, best, alts, depth).pos]
    decreases depth, 2, |alts|
  {
    var m := AltEnd(g, tokens, x, x, alts[0], depth);
    var best' := if m.pos > best then m.pos else best;
    if Longest(g, tokens, x, best', alts[1..], depth).pos > best' {
      alt, f := SoundLongest(g, tokens, x, best', alts[1..], depth);
    } else {
      alt := alts[0];
      f := SoundAlt(g, tokens, x, x, alts[0], depth);
    }
  }

  lemma {:induction false} SoundAlt(g: Rules, tokens: Tokens, start: nat, x: nat, alt: Alt, depth: nat) returns (f: Forest)
    requires start <= x <= |tokens| && AltEnd(g, tokens, start, x, alt, depth).At?
    requires AltEnd(g, tokens, start, x, alt, depth).pos > start
    ensures AltEnd(g, tokens, start, x, alt, depth).pos >= x && Derivations(g, alt, f)
    ensures Yields(f) == tokens[x..AltEnd(g, tokens, start, x, alt, depth).pos]
    decreases depth, 1, |alt|
  {
    f := Nil;
    if alt != [] {
      ghost var end := AltEnd(g, tokens, start, x, alt, depth).pos;
      var next, t := x, Nothing;
      match alt[0] {
        case Constant(_) => next, t := x + 1, Leaf(tokens[x]);
        case TokenRef(_) => next, t := x + 1, Leaf(tokens[x]);
        case Empty =>
        case Entry(name) =>
          next := EntryEnd(g, tokens, x, name, depth).pos;
          t := SoundEntry(g, tokens, x, name, depth);
      }
      f := SoundAlt(g, tokens, start, next, alt[1..], depth);
      f := Cons(t, f);
      assert tokens[x..next] + tokens[next..end] == tokens[x..end];
    }
  }

  // ---- the longest of the alternatives

  /** Whatever an alternative of the rule reaches, the rule reaches at least that far. */
  lemma {:induction false} LongestIsMaximal(g: Rules, tokens: Tokens, x: nat, best: nat, alts: seq<Alt>, depth: nat, i: nat)
    requires x <= best <= |tokens| && i < |alts| && Longest(g, tokens, x, best, alts, depth).At?
    ensures AltEnd(g, tokens, x, x, alts[i], depth).At?
    ensures AltEnd(g, tokens, x, x, alts[i], depth).pos <= Longest(g, tokens, x, best, alts, depth).pos
    decreases |alts|
  {
    if i > 0 {
      var m := AltEnd(g, tokens, x, x, alts[0], depth);
      LongestIsMaximal(g, tokens, x, if m.pos > best then m.pos else best, alts[1..], depth, i - 1);
    }
  }

  // ---- names that can never match

  /** Names whose every alternative either consumes nothing or passes through such a name. */
  ghost predicate Stuck(g: Rules, dead: set<string>) {
    forall d, alt :: d in dead && d in g && alt in g[d] ==> StuckAlt(alt, dead)
  }

  ghost predicate StuckAlt(alt: Alt, dead: set<string>) {
    || (forall i :: 0 <= i < |alt| ==> alt[i] == Empty)
    || (exists i :: 0 <= i < |alt| && alt[i].Entry? && alt[i].name in dead)
  }

  lemma {:induction false} StuckEntry(g: Rules, dead: set<string>, tokens: Tokens, x: nat, name: string, depth: nat)
    requires x <= |tokens| && Stuck(g, dead) && name in dead && EntryEnd(g, tokens, x, name, depth).At?
    ensures EntryEnd(g, tokens, x, name, depth).pos == x
    decreases depth, 0, 0
  {
    StuckLongest(g, dead, tokens, x, g[name], depth - 1);
  }

  lemma {:induction false} StuckLongest(g: Rules, dead: set<string>, tokens: Tokens, x: nat, alts: seq<Alt>, depth: nat)
    requires x <= |tokens| && Stuck(g, dead) && Longest(g, tokens, x, x, alts, depth).At?
    requires forall alt :: alt in alts ==> StuckAlt(alt, dead)
    ensures Longest(g, tokens, x, x, alts, depth).pos == x
    decreases depth, 2, |alts|
  {
    if alts != [] {
      assert StuckAlt(alts[0], dead);
      StuckAlternative(g, dead, tokens, x, x, alts[0], depth);
      StuckLongest(g, dead, tokens, x, alts[1..], depth);
    }
  }

  lemma {:induction false} StuckAlternative(g: Rules, dead: set<string>, tokens: Tokens, start: nat, x: nat, alt: Alt, depth: nat)
    requires start <= x <= |tokens| && Stuck(g, dead) && AltEnd(g, tokens, start, x, alt, depth).At?
    requires || (x == start && forall i :: 0 <= i < |alt| ==> alt[i] == Empty)
             || (exists i :: 0 <= i < |alt| && alt[i].Entry? && alt[i].name in dead)
    ensures AltEnd(g, tokens, start, x, alt, depth).pos == start
    decreases depth, 1, |alt|
  {
    if alt != [] && x < |tokens| {
      match alt[0]
      case Constant(v) => if tokens[x] == v { StuckAlternative(g, dead, tokens, start, x + 1, alt[1..], depth); }
      case TokenRef(_) => StuckAlternative(g, dead, tokens, start, x + 1, alt[1..], depth);
      case Empty => StuckAlternative(g, dead, tokens, start, x, alt[1..], depth);
      case Entry(name) =>
        var m := EntryEnd(g, tokens, x, name, depth);
        if name in dead {
          StuckEntry(g, dead, tokens, x, name, depth);
        } else if m.pos != x {
          StuckAlternative(g, dead, tokens, start, m.pos, alt[1..], depth);
        }
    }
  }

  /** `w` is a concatenation of nonempty token lists, each derived from `start`. */
  ghost predicate Concatenation(g: Rules, start: string, w: Tokens)
    decreases |w|
  {
    w == [] || exists k :: 0 < k <= |w| && Derives(g, Entry(start), w[..k]) && Concatenation(g, start, w[k..])
  }

  lemma {:induction false} ConcatenationBefore(g: Rules, start: string, w: Tokens)
    requires Fresh(g) && start in g && Concatenation(Transform(g), start, w)
    ensures Concatenation(g, start, w)
    decreases |w|
  {
    if w != [] {
      var k :| 0 < k <= |w| && Derives(Transform(g), Entry(start), w[..k]) && Concatenation(Transform(g), start, w[k..]);
      LanguagePreserved(g, start, w[..k]);
      ConcatenationBefore(g, start, w[k..]);
    }
  }

  datatype Verdict = Accepted | Rejected | Failed

  /** Repeated matches of `start` from `x` to the end of the tokens. */
  function Verdicts(g: Rules, tokens: Tokens, x: nat, start: string, depth: nat): Verdict
    requires x <= |tokens|
    decreases |tokens| - x
  {
    if x == |tokens| then Accepted
    else
      var m := EntryEnd(g, tokens, x, start, depth);
      if !m.At? then Failed
      else if m.pos == x then Rejected
      else Verdicts(g, tokens, m.pos, start, depth)
  }

  method ParseTokens(g: Rules, tokens: Tokens, start: string, depth: nat) returns (v: Verdict)
    ensures v == Verdicts(g, tokens, 0, start, depth)
  {
    var x := 0;
    while x < |tokens|
      invariant 0 <= x <= |tokens|
      invariant Verdicts(g, tokens, x, start, depth) == Verdicts(g, tokens, 0, start, depth)
    {
      var m := ParseEntry(g, tokens, x, start, depth);
      if !m.At? {
        return Failed;
      }
      if m.pos == x {
        return Rejected;
      }
      x := m.pos;
    }
    v := Accepted;
  }

  lemma {:induction false} AcceptedIsConcatenation(g: Rules, tokens: Tokens, x: nat, start: string, depth: nat)
    requires x <= |tokens| && Verdicts(g, tokens, x, start, depth) == Accepted
    ensures Concatenation(g, start, tokens[x..])
    decreases |tokens| - x
  {
    if x < |tokens| {
      var p := EntryEnd(g, tokens, x, start, depth).pos;
      var t := SoundEntry(g, tokens, x, start, depth);
      AcceptedIsConcatenation(g, tokens, p, start, depth);
      var w := tokens[x..];
      assert w[..p - x] == tokens[x..p] && w[p - x..] == tokens[p..];
      assert Derives(g, Entry(start), w[..p - x]);
    }
  }

  /** The left-recursive rules and their primed companions. */
  ghost function RecursiveNames(g: Rules): set<string> {
    (set a | a in g && LeftRecursive(g, a)) + PrimedNames(g)
  }

  /** Once rewritten, a left-recursive rule can only end through a primed entry, which never moves. */
  lemma RewrittenAreStuck(g: Rules)
    requires Fresh(g)
    ensures Stuck(Transform(g), RecursiveNames(g))
  {
    var g', dead := Transform(g), RecursiveNames(g);
    forall d, alt | d in dead && d in g' && alt in g'[d]
      ensures StuckAlt(alt, dead)
    {
      if d in g {
        StuckHead(g, d, alt);
      } else {
        var a :| a in g && LeftRecursive(g, a) && Prime(a) == d;
        StuckTail(g, a, alt);
      }
    }
  }

  lemma StuckHead(g: Rules, a: string, alt: Alt)
    requires Fresh(g) && LeftRecursive(g, a) && alt in Transform(g)[a]
    ensures StuckAlt(alt, RecursiveNames(g))
  {
    var base := HeadOrigin(g, a, alt);
    EndsStuck(base, Prime(a), RecursiveNames(g));
  }

  lemma StuckTail(g: Rules, a: string, alt: Alt)
    requires Fresh(g) && LeftRecursive(g, a) && Prime(a) in Transform(g) && alt in Transform(g)[Prime(a)]
    ensures StuckAlt(alt, RecursiveNames(g))
  {
    var rec := TailOrigin(g, a, alt);
    if alt != [Empty] {
      EndsStuck(rec[1..], Prime(a), RecursiveNames(g));
    }
  }

  lemma EndsStuck(alt: Alt, p: string, dead: set<string>)
    requires p in dead
    ensures StuckAlt(alt + [Entry(p)], dead)
  {
    assert (alt + [Entry(p)])[|alt|] == Entry(p);
  }

  /** Once rewritten, a left-recursive rule never matches anything. */
  lemma LeftRecursiveNeverMatches(g: Rules, tokens: Tokens, x: nat, a: string, depth: nat)
    requires Fresh(g) && LeftRecursive(g, a) && x <= |tokens|
    ensures var m := EntryEnd(Transform(g), tokens, x, a, depth); m.At? ==> m.pos == x
  {
    RewrittenAreStuck(g);
    if EntryEnd(Transform(g), tokens, x, a, depth).At? {
      StuckEntry(Transform(g), RecursiveNames(g), tokens, x, a, depth);
    }
  }

  /**
    The whole processor.  Whatever it accepts is derivable in the grammar it was given,
    left recursion and all.  But it accepts nothing when the start rule is left-recursive:
    the rewritten rule ends in an entry that would have to match the empty string.
   */
  method Recognise(rules: Rules, tokens: Tokens, start: string, depth: nat) returns (v: Verdict)
    requires Fresh(rules) && start in rules
    ensures v == Verdicts(Transform(rules), tokens, 0, start, depth)
    ensures v == Accepted ==> Concatenation(rules, start, tokens)
    ensures LeftRecursive(rules, start) && tokens != [] ==> v != Accepted
  {
    var p := new Parser(rules);
    var ok := p.RemoveLeftRecursion();
    v := ParseTokens(p.entries, tokens, start, depth);
    if v == Accepted {
      AcceptedIsConcatenation(p.entries, tokens, 0, start, depth);
      assert tokens[0..] == tokens;
      ConcatenationBefore(rules, start, tokens);
    }
    if LeftRecursive(rules, start) {
      LeftRecursiveNeverMatches(rules, tokens, 0, start, depth);
    }
  }
}
