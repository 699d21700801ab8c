/**
  What the recognizer (tyc/Parser2.cs) accepts, told by token positions: an alternative moves from
  position to position, one symbol at a time, and a rule leads to the furthest position any of its
  alternatives reaches.
 */
module GreedyMatch {
  import opened Grammar
  import opened Recognizer

  // ------------------------------------------------------------ positions

  /** One symbol takes a match from position `p` to position `q`, with rules nested `depth` deep. */
  ghost predicate Moves(g: Rules, tokens: Tokens, sym: Sym, p: nat, q: nat, depth: nat)
    decreases depth, 1
  {
    p < |tokens| &&
    match sym
    case Constant(v) => tokens[p] == v && q == p + 1
    case TokenRef(_) => q == p + 1
    case Empty => q == p
    case Entry(name) => q > p && Leads(g, tokens, name, p, q, depth)
  }

  /** The symbol cannot be matched at position `p`: the tokens are over, or differ, or the rule leads nowhere. */
  ghost predicate Fails(g: Rules, tokens: Tokens, sym: Sym, p: nat, depth: nat)
    decreases depth, 1
  {
    || p >= |tokens|
    || (sym.Constant? && tokens[p] != sym.value)
    || (sym.Entry? && Leads(g, tokens, sym.name, p, p, depth))
  }

  /** The positions between the first symbols of an alternative. */
  ghost predicate Path(g: Rules, tokens: Tokens, alt: Alt, ps: seq<nat>, depth: nat)
    decreases depth, 2
  {
    0 < |ps| <= |alt| + 1 && forall k :: 0 <= k < |ps| - 1 ==> Moves(g, tokens, alt[k], ps[k], ps[k + 1], depth)
  }

  /** All symbols of the alternative are matched, from `x` to `y`. */
  ghost predicate Reaches(g: Rules, tokens: Tokens, alt: Alt, x: nat, y: nat, depth: nat)
    decreases depth, 3
  {
    exists ps: seq<nat> :: Path(g, tokens, alt, ps, depth) && |ps| == |alt| + 1 && ps[0] == x && ps[|alt|] == y
  }

  /** Some symbol of the alternative, after those before it, cannot be matched. */
  ghost predicate Blocked(g: Rules, tokens: Tokens, alt: Alt, x: nat, depth: nat)
    decreases depth, 3
  {
    exists ps: seq<nat> ::
      Path(g, tokens, alt, ps, depth) && |ps| <= |alt| && ps[0] == x && Fails(g, tokens, alt[|ps| - 1], ps[|ps| - 1], depth)
  }

  /** The furthest position the alternatives of the rule reach from `x`, or `x` if they reach none beyond it. */
  ghost predicate Leads(g: Rules, tokens: Tokens, name: string, x: nat, y: nat, depth: nat)
    decreases depth, 0
  {
    && name in g && depth > 0 && x <= y
    && (y == x || exists i :: 0 <= i < |g[name]| && Reaches(g, tokens, g[name][i], x, y, depth - 1))
    && (forall i :: 0 <= i < |g[name]| ==> NoFurther(g, tokens, g[name][i], x, y, depth - 1))
  }

  ghost predicate NoFurther(g: Rules, tokens: Tokens, alt: Alt, x: nat, y: nat, depth: nat)
    decreases depth, 4
  {
    Blocked(g, tokens, alt, x, depth) || exists z: nat :: z <= y && Reaches(g, tokens, alt, x, z, depth)
  }

  // ------------------------------------------------------------ symbol by symbol

  lemma ReachesFirst(g: Rules, tokens: Tokens, alt: Alt, x: nat, y: nat, depth: nat, q: nat)
    requires alt != [] && Moves(g, tokens, alt[0], x, q, depth) && Reaches(g, tokens, alt[1..], q, y, depth)
    ensures Reaches(g, tokens, alt, x, y, depth)
  {
    hide Moves;
    var rest :| Path(g, tokens, alt[1..], rest, depth) && |rest| == |alt| && rest[0] == q && rest[|alt| - 1] == y;
    PathFirst(g, tokens, alt, x, rest, depth);
    var ps := [x] + rest;
    assert ps[|alt|] == y;
  }

  lemma PathFirst(g: Rules, tokens: Tokens, alt: Alt, x: nat, rest: seq<nat>, depth: nat)
    requires alt != [] && Path(g, tokens, alt[1..], rest, depth) && Moves(g, tokens, alt[0], x, rest[0], depth)
    ensures Path(g, tokens, alt, [x] + rest, depth)
  {
    hide Moves;
    var ps := [x] + rest;
    forall k | 0 <= k < |ps| - 1 ensures Moves(g, tokens, alt[k], ps[k], ps[k + 1], depth) {
      if k > 0 {
        assert Moves(g, tokens, alt[1..][k - 1], rest[k - 1], rest[k], depth);
      }
    }
  }

  lemma PathRest(g: Rules, tokens: Tokens, alt: Alt, ps: seq<nat>, depth: nat)
    requires Path(g, tokens, alt, ps, depth) && |ps| > 1
    ensures Moves(g, tokens, alt[0], ps[0], ps[1], depth) && Path(g, tokens, alt[1..], ps[1..], depth)
  {
    hide Moves;
    var rest := ps[1..];
    forall k | 0 <= k < |rest| - 1 ensures Moves(g, tokens, alt[1..][k], rest[k], rest[k + 1], depth) {
      assert Moves(g, tokens, alt[k + 1], ps[k + 1], ps[k + 2], depth);
    }
  }

  lemma ReachesRest(g: Rules, tokens: Tokens, alt: Alt, x: nat, y: nat, depth: nat) returns (q: nat)
    requires alt != [] && Reaches(g, tokens, alt, x, y, depth)
    ensures Moves(g, tokens, alt[0], x, q, depth) && Reaches(g, tokens, alt[1..], q, y, depth)
  {
    hide Moves;
    var ps :| Path(g, tokens, alt, ps, depth) && |ps| == |alt| + 1 && ps[0] == x && ps[|alt|] == y;
    PathRest(g, tokens, alt, ps, depth);
    q := ps[1];
    assert ps[1..][|alt| - 1] == y;
  }

  lemma BlockedFirst(g: Rules, tokens: Tokens, alt: Alt, x: nat, depth: nat, q: nat)
    requires alt != [] && Moves(g, tokens, alt[0], x, q, depth) && Blocked(g, tokens, alt[1..], q, depth)
    ensures Blocked(g, tokens, alt, x, depth)
  {
    hide Moves, Fails;
    var rest :| Path(g, tokens, alt[1..], rest, depth) && |rest| < |alt| && rest[0] == q
                && Fails(g, tokens, alt[1..][|rest| - 1], rest[|rest| - 1], depth);
    PathFirst(g, tokens, alt, x, rest, depth);
    var ps := [x] + rest;
    assert alt[|ps| - 1] == alt[1..][|rest| - 1] && ps[|ps| - 1] == rest[|rest| - 1];
  }

  lemma BlockedHere(g: Rules, tokens: Tokens, alt: Alt, x: nat, depth: nat)
    requires alt != [] && Fails(g, tokens, alt[0], x, depth)
    ensures Blocked(g, tokens, alt, x, depth)
  {
    hide Moves, Fails;
    assert Path(g, tokens, alt, [x], depth);
  }

  lemma BlockedRest(g: Rules, tokens: Tokens, alt: Alt, x: nat, depth: nat) returns (here: bool, q: nat)
    requires Blocked(g, tokens, alt, x, depth)
    ensures alt != [] && if here then Fails(g, tokens, alt[0], x, depth)
                         else Moves(g, tokens, alt[0], x, q, depth) && Blocked(g, tokens, alt[1..], q, depth)
  {
    hide Moves, Fails;
    var ps :| Path(g, tokens, alt, ps, depth) && |ps| <= |alt| && ps[0] == x && Fails(g, tokens, alt[|ps| - 1], ps[|ps| - 1], depth);
    here, q := |ps| == 1, 0;
    if !here {
      PathRest(g, tokens, alt, ps, depth);
      q := ps[1];
      var rest := ps[1..];
      assert alt[1..][|rest| - 1] == alt[|ps| - 1] && rest[|rest| - 1] == ps[|ps| - 1];
    }
  }

  lemma ReachesNothing(g: Rules, tokens: Tokens, alt: Alt, x: nat, y: nat, depth: nat)
    requires alt == []
    ensures Reaches(g, tokens, alt, x, y, depth) <==> x == y
    ensures !Blocked(g, tokens, alt, x, depth)
  {
    assert Path(g, tokens, alt, [x], depth);
  }

  // ------------------------------------------------------------ the recognizer

  /** What the recognizer does with one symbol. */
  datatype Turn = Moved(pos: nat) | Stuck | Open(m: Match)

  ghost function TurnAt(g: Rules, tokens: Tokens, x: nat, sym: Sym, depth: nat): (t: Turn)
    requires x <= |tokens|
    ensures t.Moved? ==> x <= t.pos <= |tokens|
  {
    if x >= |tokens| then Stuck
    else match sym
      case Constant(v) => if tokens[x] != v then Stuck else Moved(x + 1)
      case TokenRef(_) => Moved(x + 1)
      case Empty => Moved(x)
      case Entry(name) =>
        var m := EntryEnd(g, tokens, x, name, depth);
        if !m.At? then Open(m) else if m.pos == x then Stuck else Moved(m.pos)
  }

  lemma AltTurn(g: Rules, tokens: Tokens, start: nat, x: nat, alt: Alt, depth: nat)
    requires start <= x <= |tokens| && alt != []
    ensures var m := AltEnd(g, tokens, start, x, alt, depth);
            match TurnAt(g, tokens, x, alt[0], depth)
            case Moved(q) => m == AltEnd(g, tokens, start, q, alt[1..], depth)
            case Stuck => m == At(start)
            case Open(_) => !m.At?
  {
  }

  /** One symbol is matched, cannot be, or is not settled, as the recognizer finds. */
  lemma TurnExactly(g: Rules, tokens: Tokens, x: nat, sym: Sym, depth: nat)
    requires x <= |tokens|
    ensures var t := TurnAt(g, tokens, x, sym, depth);
            (forall q: nat :: Moves(g, tokens, sym, x, q, depth) <==> t == Moved(q)) && (Fails(g, tokens, sym, x, depth) <==> t == Stuck)
    decreases depth, 0, 1
  {
    hide Leads;
    if x < |tokens| && sym.Entry? {
      forall y: nat ensures EntryEnd(g, tokens, x, sym.name, depth) == At(y) <==> Leads(g, tokens, sym.name, x, y, depth) {
        EntryExactly(g, tokens, x, sym.name, y, depth);
      }
    }
  }

  /** An alternative that the recognizer settles reaches its end, or is blocked and gives back the start. */
  lemma {:induction false} AltExactly(g: Rules, tokens: Tokens, start: nat, x: nat, alt: Alt, depth: nat)
    requires start <= x <= |tokens|
    ensures var m := AltEnd(g, tokens, start, x, alt, depth);
            && (m.At? ==> Reaches(g, tokens, alt, x, m.pos, depth) || (Blocked(g, tokens, alt, x, depth) && m.pos == start))
            && (forall y: nat :: Reaches(g, tokens, alt, x, y, depth) ==> m == At(y))
            && (Blocked(g, tokens, alt, x, depth) ==> m == At(start))
    decreases depth, 1, |alt|
  {
    hide Reaches, Blocked, Moves, Fails;
    if alt == [] {
      forall y: nat ensures Reaches(g, tokens, alt, x, y, depth) <==> x == y { ReachesNothing(g, tokens, alt, x, y, depth); }
      ReachesNothing(g, tokens, alt, x, x, depth);
    } else {
      hide AltEnd, TurnAt;
      AltTurn(g, tokens, start, x, alt, depth);
      TurnExactly(g, tokens, x, alt[0], depth);
      var t, m := TurnAt(g, tokens, x, alt[0], depth), AltEnd(g, tokens, start, x, alt, depth);
      forall y: nat | Reaches(g, tokens, alt, x, y, depth) ensures t.Moved? && Reaches(g, tokens, alt[1..], t.pos, y, depth) {
        var q := ReachesRest(g, tokens, alt, x, y, depth);
      }
      if Blocked(g, tokens, alt, x, depth) {
        var here, q := BlockedRest(g, tokens, alt, x, depth);
      }
      if t.Moved? {
        AltExactly(g, tokens, start, t.pos, alt[1..], depth);
        if Blocked(g, tokens, alt[1..], t.pos, depth) {
          BlockedFirst(g, tokens, alt, x, depth, t.pos);
        }
        if m.At? && Reaches(g, tokens, alt[1..], t.pos, m.pos, depth) {
          ReachesFirst(g, tokens, alt, x, m.pos, depth, t.pos);
        }
      }
      if t.Stuck? {
        BlockedHere(g, tokens, alt, x, depth);
      }
    }
  }

  /** The alternatives from the `i`-th on, and the best position before them, settle at `r`. */
  ghost predicate Settles(g: Rules, tokens: Tokens, x: nat, best: nat, alts: seq<Alt>, r: nat, depth: nat) {
    && best <= r && (r == best || exists i :: 0 <= i < |alts| && Reaches(g, tokens, alts[i], x, r, depth))
    && (forall i :: 0 <= i < |alts| ==> NoFurther(g, tokens, alts[i], x, r, depth))
  }

  lemma {:induction false} LongestExactly(g: Rules, tokens: Tokens, x: nat, best: nat, alts: seq<Alt>, r: nat, depth: nat)
    requires x <= best <= |tokens|
    ensures Longest(g, tokens, x, best, alts, depth) == At(r) <==> Settles(g, tokens, x, best, alts, r, depth)
    decreases depth, 2, |alts|
  {
    hide Reaches, Blocked;
    if alts != [] {
      AltExactly(g, tokens, x, x, alts[0], depth);
      var m := AltEnd(g, tokens, x, x, alts[0], depth);
      if m.At? {
        var best' := if m.pos > best then m.pos else best;
        LongestExactly(g, tokens, x, best', alts[1..], r, depth);
        SettlesOn(g, tokens, x, best, alts, r, depth, m.pos);
      } else {
        assert !NoFurther(g, tokens, alts[0], x, r, depth);
      }
    }
  }

  lemma SettlesOn(g: Rules, tokens: Tokens, x: nat, best: nat, alts: seq<Alt>, r: nat, depth: nat, y: nat)
    requires x <= best && x <= y && alts != []
    requires Reaches(g, tokens, alts[0], x, y, depth) || (Blocked(g, tokens, alts[0], x, depth) && y == x)
    requires forall z: nat :: Reaches(g, tokens, alts[0], x, z, depth) ==> z == y
    requires Blocked(g, tokens, alts[0], x, depth) ==> y == x
    ensures Settles(g, tokens, x, best, alts, r, depth) <==>
            Settles(g, tokens, x, if y > best then y else best, alts[1..], r, depth)
  {
    hide Reaches, Blocked;
    var best', rest := if y > best then y else best, alts[1..];
    if Settles(g, tokens, x, best', rest, r, depth) {
      forall i | 0 <= i < |alts| ensures NoFurther(g, tokens, alts[i], x, r, depth) {
        if i > 0 {
          assert NoFurther(g, tokens, rest[i - 1], x, r, depth);
        }
      }
      if r != best' {
        var i :| 0 <= i < |rest| && Reaches(g, tokens, rest[i], x, r, depth);
        assert Reaches(g, tokens, alts[i + 1], x, r, depth);
      } else if r != best {
        assert Reaches(g, tokens, alts[0], x, r, depth);
      }
    }
    if Settles(g, tokens, x, best, alts, r, depth) {
      assert NoFurther(g, tokens, alts[0], x, r, depth);
      forall i | 0 <= i < |rest| ensures NoFurther(g, tokens, rest[i], x, r, depth) {
        assert NoFurther(g, tokens, alts[i + 1], x, r, depth);
      }
      if r != best {
        var i :| 0 <= i < |alts| && Reaches(g, tokens, alts[i], x, r, depth);
        assert i > 0 ==> Reaches(g, tokens, rest[i - 1], x, r, depth);
      }
    }
  }

  /** The recognizer finds for a rule exactly the position it leads to. */
  lemma {:induction false} EntryExactly(g: Rules, tokens: Tokens, x: nat, name: string, y: nat, depth: nat)
    requires x <= |tokens|
    ensures EntryEnd(g, tokens, x, name, depth) == At(y) <==> Leads(g, tokens, name, x, y, depth)
    decreases depth, 0, 0
  {
    hide Reaches, Blocked, NoFurther;
    if name in g && depth > 0 {
      LongestExactly(g, tokens, x, x, g[name], y, depth - 1);
    }
  }

  /** The tokens from `x` on are covered by repeated greedy matches of a rule, none of them empty. */
  ghost predicate Covered(g: Rules, tokens: Tokens, x: nat, start: string, depth: nat)
    decreases if x <= |tokens| then |tokens| - x else 0
  {
    x == |tokens| || exists y: nat :: x < y <= |tokens| && Leads(g, tokens, start, x, y, depth) && Covered(g, tokens, y, start, depth)
  }

  /** Repeated greedy matches come to a position before the end from which the rule leads nowhere. */
  ghost predicate HeldUp(g: Rules, tokens: Tokens, x: nat, start: string, depth: nat)
    decreases if x <= |tokens| then |tokens| - x else 0
  {
    x < |tokens| &&
    (Leads(g, tokens, start, x, x, depth)
     || exists y: nat :: x < y <= |tokens| && Leads(g, tokens, start, x, y, depth) && HeldUp(g, tokens, y, start, depth))
  }

  /** Accepted are exactly the token lists that are covered, and rejected those that are held up. */
  lemma {:induction false} AcceptedExactly(g: Rules, tokens: Tokens, x: nat, start: string, depth: nat)
    requires x <= |tokens|
    ensures Verdicts(g, tokens, x, start, depth) == Accepted <==> Covered(g, tokens, x, start, depth)
    ensures Verdicts(g, tokens, x, start, depth) == Rejected <==> HeldUp(g, tokens, x, start, depth)
    decreases |tokens| - x
  {
    hide Leads;
    if x < |tokens| {
      var m := EntryEnd(g, tokens, x, start, depth);
      forall y: nat ensures m == At(y) <==> Leads(g, tokens, start, x, y, depth) { EntryExactly(g, tokens, x, start, y, depth); }
      if m.At? && m.pos > x {
        AcceptedExactly(g, tokens, m.pos, start, depth);
      }
    }
  }
}
