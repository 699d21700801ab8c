/** The characters a symbol trie branches on (tytrie/Palette.cs), and their indices. */
module TriePalette {

  /** Each character's last position. */
  function ReverseOf(pal: seq<char>): map<char, nat> {
    if pal == [] then map[]
    else ReverseOf(pal[..|pal| - 1])[pal[|pal| - 1] := |pal| - 1]
  }

  lemma {:induction false} ReverseIs(pal: seq<char>)
    ensures forall c :: c in ReverseOf(pal) <==> c in pal
    ensures forall c :: c in ReverseOf(pal) ==>
      var i := ReverseOf(pal)[c]; i < |pal| && pal[i] == c && forall j :: i < j < |pal| ==> pal[j] != c
  {
    if pal != [] {
      var init := pal[..|pal| - 1];
      ReverseIs(init);
      assert pal == init + [pal[|pal| - 1]];
    }
  }

  /** An index leads back to its character, and so different characters have different indices. */
  lemma IndexInjective(pal: seq<char>, c: char, d: char)
    requires c in ReverseOf(pal) && d in ReverseOf(pal) && ReverseOf(pal)[c] == ReverseOf(pal)[d]
    ensures c == d
  {
    ReverseIs(pal);
  }

  /** Index and character are inverse both ways exactly when no character is repeated. */
  lemma Bijection(pal: seq<char>)
    ensures (forall i :: 0 <= i < |pal| ==> pal[i] in ReverseOf(pal) && ReverseOf(pal)[pal[i]] == i)
       <==> (forall i, j :: 0 <= i < j < |pal| ==> pal[i] != pal[j])
  {
    ReverseIs(pal);
    if forall i, j :: 0 <= i < j < |pal| ==> pal[i] != pal[j] {
      forall i | 0 <= i < |pal| ensures pal[i] in ReverseOf(pal) && ReverseOf(pal)[pal[i]] == i {
        assert pal[i] in pal;
        var k := ReverseOf(pal)[pal[i]];
        assert pal[k] == pal[i];
      }
    }
  }

  class Palette {
    const pal: seq<char>
    var reverse: map<char, nat>

    constructor (palette: seq<char>)
      ensures pal == palette && Valid()
    {
      pal, reverse := palette, map[];
      new;
      PopulateReverse();
    }

    ghost predicate Valid()
      reads this
    {
      reverse == ReverseOf(pal)
    }

    method PopulateReverse()
      modifies this`reverse
      ensures Valid()
    {
      reverse := map[];
      for i := 0 to |pal|
        invariant reverse == ReverseOf(pal[..i])
      {
        assert pal[..i + 1][..i] == pal[..i];
        reverse := reverse[pal[i] := i];
      }
      assert pal[..|pal|] == pal;
    }
  }
}
