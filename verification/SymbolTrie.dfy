/**
  The symbol trie of tytrie/Trie.cs: tiers linked through arrays of children, one per palette
  index, updated in place.
 */
module SymbolTrie {
  import opened Bytes
  import opened Options
  import opened TriePalette

  /** A tier is known by the indices that lead to it from the base tier. */
  datatype Path = Top | At(parent: Path, idx: nat)

  ghost predicate Below(p: Path, q: Path) {
    q == p || (q.At? && Below(p, q.parent))
  }

  class Tier {
    var isTerminal: bool
    var terminal: nat
    var tiers: seq<Tier?>
    var fileOffset: I32

    constructor (size: nat)
      ensures !isTerminal && terminal == 0 && fileOffset == 0
      ensures |tiers| == size && forall i :: 0 <= i < size ==> tiers[i] == null
    {
      isTerminal, terminal, fileOffset := false, 0, 0;
      tiers := seq(size, _ => null);
    }
  }

  method NewTier(size: nat, isTerminal: bool, val: nat) returns (t: Tier)
    ensures fresh(t) && t.isTerminal == isTerminal && t.fileOffset == 0 && (isTerminal ==> t.terminal == val)
    ensures |t.tiers| == size && forall i :: 0 <= i < size ==> t.tiers[i] == null
  {
    t := new Tier(size);
    if isTerminal {
      t.isTerminal := true;
      t.terminal := val;
    }
  }

  /** The path of a name, character by character. */
  function PathOf(reverse: map<char, nat>, name: string): Path
    requires forall i :: 0 <= i < |name| ==> name[i] in reverse
  {
    if name == [] then Top
    else At(PathOf(reverse, name[..|name| - 1]), reverse[name[|name| - 1]])
  }

  /** Every character has an index, and so has the NUL that ends a name. */
  predicate Encodable(reverse: map<char, nat>, name: string) {
    (forall i :: 0 <= i < |name| ==> name[i] in reverse) && '\0' in reverse
  }

  predicate NulFree(name: string) {
    forall i :: 0 <= i < |name| ==> name[i] != '\0'
  }

  function EndOf(reverse: map<char, nat>, name: string): Path
    requires Encodable(reverse, name)
  {
    At(PathOf(reverse, name), reverse['\0'])
  }

  lemma {:induction false} PathInjective(pal: seq<char>, a: string, b: string)
    requires forall i :: 0 <= i < |a| ==> a[i] in ReverseOf(pal)
    requires forall i :: 0 <= i < |b| ==> b[i] in ReverseOf(pal)
    requires PathOf(ReverseOf(pal), a) == PathOf(ReverseOf(pal), b)
    ensures a == b
    decreases |a|
  {
    if a != [] && b != [] {
      var a', b' := a[..|a| - 1], b[..|b| - 1];
      PathInjective(pal, a', b');
      IndexInjective(pal, a[|a| - 1], b[|b| - 1]);
      assert a == a' + [a[|a| - 1]] && b == b' + [b[|b| - 1]];
    }
  }

  /** Different names end at different places. */
  lemma EndInjective(pal: seq<char>, a: string, b: string)
    requires Encodable(ReverseOf(pal), a) && Encodable(ReverseOf(pal), b) && EndOf(ReverseOf(pal), a) == EndOf(ReverseOf(pal), b)
    ensures a == b
  {
    PathInjective(pal, a, b);
  }

  /** The index of a NUL, if the palette has one. */
  ghost predicate IsNul(reverse: map<char, nat>, i: nat) {
    '\0' in reverse && i == reverse['\0']
  }

  class Trie {
    const pal: seq<char>
    const reverse: map<char, nat>
    var base: Tier
    var unencodable: map<string, nat>
    ghost var nodes: map<Path, Tier>

    constructor (palette: Palette)
      requires palette.Valid()
      ensures Valid() && pal == palette.pal && unencodable == map[] && Symbols() == map[] && fresh(nodes.Values)
    {
      pal, reverse := palette.pal, palette.reverse;
      base := new Tier(|palette.pal|);
      unencodable := map[];
      new;
      hide Shape, Terminals, SymbolsOf, Links, Marks, ReverseOf;
      nodes := map[Top := base];
      LinksAre(map[Top := base.tiers]);
      MarksAre(map[Top := None]);
      JustTop(nodes, Links(), |pal|, Marks(), reverse);
    }

    ghost function Links(): map<Path, seq<Tier?>>
      reads this`nodes, this`base, nodes.Values`tiers, nodes.Values`isTerminal, nodes.Values`terminal
    {
      map p | p in nodes :: nodes[p].tiers
    }

    ghost function Marks(): map<Path, Option<nat>>
      reads this`nodes, this`base, nodes.Values`tiers, nodes.Values`isTerminal, nodes.Values`terminal
    {
      map p | p in nodes :: if nodes[p].isTerminal then Some(nodes[p].terminal) else None
    }

    lemma LinksAre(links: map<Path, seq<Tier?>>)
      requires links.Keys == nodes.Keys && forall p :: p in nodes ==> links[p] == nodes[p].tiers
      ensures Links() == links
    {
    }

    lemma MarksAre(marks: map<Path, Option<nat>>)
      requires marks.Keys == nodes.Keys
      requires forall p :: p in nodes ==> marks[p] == if nodes[p].isTerminal then Some(nodes[p].terminal) else None
      ensures Marks() == marks
    {
    }

    lemma LinksMarks()
      ensures Links().Keys == nodes.Keys && Marks().Keys == nodes.Keys
      ensures forall p :: p in nodes ==> Links()[p] == nodes[p].tiers
      ensures forall p :: p in nodes ==> Marks()[p] == if nodes[p].isTerminal then Some(nodes[p].terminal) else None
    {
    }

    ghost predicate Valid()
      reads this`nodes, this`base, nodes.Values`tiers, nodes.Values`isTerminal, nodes.Values`terminal
    {
      && reverse == ReverseOf(pal)
      && Top in nodes && nodes[Top] == base
      && Shape(nodes, Links(), |pal|)
      && Terminals(Marks(), reverse)
    }

    /** The values held at the ends of names. */
    ghost function Symbols(): map<Path, nat>
      reads this`nodes, this`base, nodes.Values`tiers, nodes.Values`isTerminal, nodes.Values`terminal
    {
      SymbolsOf(Marks())
    }

    predicate IsEncodable(name: string)
      ensures IsEncodable(name) == Encodable(reverse, name)
    {
      (forall i :: 0 <= i < |name| ==> name[i] in reverse) && '\0' in reverse
    }

    /** Hangs a new tier below entry `i` of the tier at `p`, in place of a terminal one or of none. */
    method SetChild(cur: Tier, i: nat, isTerminal: bool, val: nat, ghost p: Path) returns (t: Tier)
      requires Valid() && p in nodes && nodes[p] == cur && i < |pal|
      requires isTerminal <==> IsNul(reverse, i)
      requires isTerminal || At(p, i) !in nodes
      requires p.At? ==> !IsNul(reverse, p.idx)
      modifies this`nodes, cur`tiers
      ensures Valid() && fresh(t) && nodes == old(nodes)[At(p, i) := t]
      ensures Symbols() == if isTerminal then old(Symbols())[At(p, i) := val] else old(Symbols())
    {
      hide Shape, Terminals, SymbolsOf, Links, Marks, IsNul, ReverseOf;
      t := NewTier(|pal|, isTerminal, val);
      Hang(cur, i, t, if isTerminal then Some(val) else None, p);
    }

    method Hang(cur: Tier, i: nat, t: Tier, ghost m: Option<nat>, ghost p: Path)
      requires Valid() && p in nodes && nodes[p] == cur && i < |pal| && (p.At? ==> !IsNul(reverse, p.idx))
      requires (m.Some? <==> IsNul(reverse, i)) && (m.Some? || At(p, i) !in nodes)
      requires t !in nodes.Values && |t.tiers| == |pal| && forall k :: 0 <= k < |pal| ==> t.tiers[k] == null
      requires m == if t.isTerminal then Some(t.terminal) else None
      modifies this`nodes, cur`tiers
      ensures Valid() && nodes == old(nodes)[At(p, i) := t]
      ensures Symbols() == if m.Some? then old(Symbols())[At(p, i) := m.value] else old(Symbols())
    {
      hide Shape, Terminals, SymbolsOf, Links, Marks, IsNul, ReverseOf;
      ghost var nodes0, links0, marks0 := nodes, Links(), Marks();
      ghost var q := At(p, i);
      LinksMarks();
      Distinct(nodes, links0, |pal|, p);
      Childless(nodes, links0, marks0, |pal|, reverse, q);
      cur.tiers := cur.tiers[i := t];
      nodes := nodes[q := t];
      ghost var links := links0[p := cur.tiers][q := t.tiers];
      assert Links() == links by { LinksAre(links); }
      assert Marks() == marks0[q := m] by { MarksAre(marks0[q := m]); }
      ShapeGrows(nodes0, links0, |pal|, p, i, t, links);
      TerminalsGrow(marks0, reverse, p, i, m);
    }

    /** One character of a name: the tier it leads to, made if it is not there yet. */
    method Step(cur: Tier, i: nat, ghost p: Path) returns (next: Tier)
      requires Valid() && p in nodes && nodes[p] == cur && i < |pal|
      requires !IsNul(reverse, i) && (p.At? ==> !IsNul(reverse, p.idx))
      modifies this`nodes, cur
      ensures Valid() && At(p, i) in nodes && nodes[At(p, i)] == next
      ensures Symbols() == old(Symbols()) && fresh(nodes.Values - old(nodes.Values))
    {
      hide Shape, Terminals, SymbolsOf, Links, Marks, IsNul, ReverseOf;
      ghost var links0, marks0 := Links(), Marks();
      LinksMarks();
      Child(nodes, links0, |pal|, p, i);
      NotTerminal(marks0, reverse, p);
      cur.isTerminal := false;
      assert Links() == links0 by { LinksAre(links0); }
      assert Marks() == marks0 by { MarksAre(marks0); }
      if cur.tiers[i] == null {
        next := SetChild(cur, i, false, 0, p);
        ValuesGrow(old(nodes), At(p, i), next);
      } else {
        next := cur.tiers[i];
      }
    }

    /**
      Adding a symbol changes the mapping of symbols to values at that one name, and only if the
      name is new or may be overwritten; names the palette cannot spell go to a plain dictionary.
     */
    method AddSymbol(name: string, val: nat, overwrite: bool) returns (added: bool)
      requires Valid() && NulFree(name)
      modifies this, nodes.Values
      ensures Valid() && fresh(nodes.Values - old(nodes.Values))
      ensures Encodable(reverse, name) ==>
                && unencodable == old(unencodable)
                && added == (overwrite || EndOf(reverse, name) !in old(Symbols()))
                && Symbols() == if added then old(Symbols())[EndOf(reverse, name) := val] else old(Symbols())
      ensures !Encodable(reverse, name) ==>
                && Symbols() == old(Symbols())
                && added == (overwrite || name !in old(unencodable))
                && unencodable == if added then old(unencodable)[name := val] else old(unencodable)
    {
      hide Shape, Terminals, SymbolsOf, Links, Marks, ReverseOf;
      if !IsEncodable(name) {
        added := overwrite || name !in unencodable;
        if added {
          unencodable := unencodable[name := val];
        }
        return;
      }
      Indices(pal, reverse);
      var cur, k := base, 0;
      while k < |name|
        invariant 0 <= k <= |name| && Valid() && unencodable == old(unencodable)
        invariant PathOf(reverse, name[..k]) in nodes && nodes[PathOf(reverse, name[..k])] == cur
        invariant Symbols() == old(Symbols()) && fresh(nodes.Values - old(nodes.Values))
      {
        PathStep(pal, reverse, name, k);
        assert nodes[PathOf(reverse, name[..k])] in nodes.Values;
        cur := Step(cur, reverse[name[k]], PathOf(reverse, name[..k]));
        k := k + 1;
      }
      assert name[..k] == name;
      PathStep(pal, reverse, name, k);
      ghost var p := PathOf(reverse, name);
      assert nodes[p] in nodes.Values;
      var i := reverse['\0'];
      LinksMarks();
      Child(nodes, Links(), |pal|, p, i);
      SymbolAt(Marks(), reverse, At(p, i));
      added := cur.tiers[i] == null || overwrite;
      if added {
        ghost var nodes1 := nodes;
        var t := SetChild(cur, i, true, val, p);
        ValuesGrow(nodes1, At(p, i), t);
      }
    }
  }

  /** Every tier has one path, and the child links follow the paths. */
  ghost predicate Shape(nodes: map<Path, Tier>, links: map<Path, seq<Tier?>>, size: nat) {
    && nodes.Keys == links.Keys
    && (forall p :: p in nodes ==> |links[p]| == size)
    && (forall p, i :: p in nodes && 0 <= i < size ==> links[p][i] == if At(p, i) in nodes then nodes[At(p, i)] else null)
    && (forall p :: p in nodes && p.At? ==> p.parent in nodes && p.idx < size)
    && (forall p, q :: p in nodes && q in nodes && p != q ==> nodes[p] != nodes[q])
  }

  /** Terminal tiers are the ones reached by a NUL, and they have no children. */
  ghost predicate Terminals(marks: map<Path, Option<nat>>, reverse: map<char, nat>) {
    && (forall p :: p in marks ==> (marks[p].Some? <==> p.At? && IsNul(reverse, p.idx)))
    && (forall p :: p in marks && p.At? && p.parent.At? ==> !IsNul(reverse, p.parent.idx))
  }

  ghost function SymbolsOf(marks: map<Path, Option<nat>>): map<Path, nat> {
    map p | p in marks && marks[p].Some? :: marks[p].value
  }

  lemma JustTop(nodes: map<Path, Tier>, links: map<Path, seq<Tier?>>, size: nat, marks: map<Path, Option<nat>>,
                reverse: map<char, nat>)
    requires nodes.Keys == links.Keys == {Top} && marks == map[Top := None]
    requires |links[Top]| == size && forall i :: 0 <= i < size ==> links[Top][i] == null
    ensures Shape(nodes, links, size) && Terminals(marks, reverse) && SymbolsOf(marks) == map[]
  {
    assert Top in nodes.Keys;
  }

  lemma Distinct(nodes: map<Path, Tier>, links: map<Path, seq<Tier?>>, size: nat, p: Path)
    requires Shape(nodes, links, size) && p in nodes
    ensures forall q :: q in nodes && p != q ==> nodes[p] != nodes[q]
    ensures |links[p]| == size
  {
  }

  /** Nothing hangs below an absent tier or below a NUL. */
  lemma Childless(nodes: map<Path, Tier>, links: map<Path, seq<Tier?>>, marks: map<Path, Option<nat>>, size: nat,
                  reverse: map<char, nat>, q: Path)
    requires Shape(nodes, links, size) && nodes.Keys == marks.Keys && Terminals(marks, reverse) && q.At?
    requires q !in nodes || IsNul(reverse, q.idx)
    ensures forall j :: At(q, j) !in nodes
  {
    assert forall r :: r in nodes && r.At? ==> r.parent in nodes && r in marks;
    forall j ensures At(q, j) !in nodes { }
  }

  lemma ShapeGrows(nodes: map<Path, Tier>, links: map<Path, seq<Tier?>>, size: nat, p: Path, i: nat, t: Tier,
                   links': map<Path, seq<Tier?>>)
    requires Shape(nodes, links, size) && p in nodes && i < size && t !in nodes.Values
    requires forall j :: 0 <= j < size ==> At(At(p, i), j) !in nodes
    requires At(p, i) in links' && |links'[At(p, i)]| == size && forall j :: 0 <= j < size ==> links'[At(p, i)][j] == null
    requires links' == links[p := links[p][i := t]][At(p, i) := links'[At(p, i)]]
    ensures Shape(nodes[At(p, i) := t], links', size)
  {
    var nodes', q := nodes[At(p, i) := t], At(p, i);
    forall r, j | r in nodes' && 0 <= j < size
      ensures links'[r][j] == if At(r, j) in nodes' then nodes'[At(r, j)] else null
    {
      if r != q && r != p {
        assert links'[r] == links[r];
      }
    }
    forall r | r in nodes ensures nodes[r] != t { assert nodes[r] in nodes.Values; }
  }

  lemma TerminalsGrow(marks: map<Path, Option<nat>>, reverse: map<char, nat>, p: Path, i: nat, m: Option<nat>)
    requires Terminals(marks, reverse) && p in marks && (m.Some? <==> IsNul(reverse, i)) && (p.At? ==> !IsNul(reverse, p.idx))
    ensures Terminals(marks[At(p, i) := m], reverse)
    ensures m.Some? ==> SymbolsOf(marks[At(p, i) := m]) == SymbolsOf(marks)[At(p, i) := m.value]
    ensures m.None? && At(p, i) !in marks ==> SymbolsOf(marks[At(p, i) := m]) == SymbolsOf(marks)
  {
  }

  lemma Child(nodes: map<Path, Tier>, links: map<Path, seq<Tier?>>, size: nat, p: Path, i: nat)
    requires Shape(nodes, links, size) && p in nodes && i < size
    ensures |links[p]| == size && links[p][i] == if At(p, i) in nodes then nodes[At(p, i)] else null
  {
  }

  lemma NotTerminal(marks: map<Path, Option<nat>>, reverse: map<char, nat>, p: Path)
    requires Terminals(marks, reverse) && p in marks && (p.At? ==> !IsNul(reverse, p.idx))
    ensures marks[p] == None
  {
  }

  lemma SymbolAt(marks: map<Path, Option<nat>>, reverse: map<char, nat>, q: Path)
    requires Terminals(marks, reverse) && q.At? && IsNul(reverse, q.idx)
    ensures q in SymbolsOf(marks) <==> q in marks
  {
  }

  lemma ValuesGrow(nodes: map<Path, Tier>, q: Path, t: Tier)
    ensures nodes[q := t].Values <= nodes.Values + {t}
  {
  }

  lemma Indices(pal: seq<char>, reverse: map<char, nat>)
    requires reverse == ReverseOf(pal)
    ensures forall c :: c in reverse ==> reverse[c] < |pal|
  {
    ReverseIs(pal);
  }

  /** One more character; no character of a name has the index of a NUL. */
  lemma PathStep(pal: seq<char>, reverse: map<char, nat>, name: string, k: nat)
    requires reverse == ReverseOf(pal) && Encodable(reverse, name) && NulFree(name) && k <= |name|
    ensures k < |name| ==> PathOf(reverse, name[..k + 1]) == At(PathOf(reverse, name[..k]), reverse[name[k]])
    ensures k < |name| ==> !IsNul(reverse, reverse[name[k]])
    ensures PathOf(reverse, name[..k]).At? ==> !IsNul(reverse, PathOf(reverse, name[..k]).idx)
  {
    forall c | c in name && reverse[c] == reverse['\0'] ensures c == '\0' {
      IndexInjective(pal, c, '\0');
    }
    if k < |name| {
      assert name[..k + 1][..k] == name[..k];
      assert name[k] in name;
    }
    if 0 < k {
      assert name[..k][k - 1] == name[k - 1] && name[k - 1] in name;
    }
  }
}
