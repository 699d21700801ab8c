/**
  Reading a trie's file back from its bytes alone: the names the palette cannot spell, as the table
  at the end of the file lists them (tytrie/Trie.cs).
 */
module TrieReader {
  import opened Bytes
  import opened SymbolTrie
  import opened TrieTail

  /** The bytes from a position up to the next NUL. */
  function UpToNul(b: seq<Byte>, at: nat): seq<Byte>
    decreases |b| - at
  {
    if at >= |b| || b[at] == 0 then [] else [b[at]] + UpToNul(b, at + 1)
  }

  /** The text entry `k` of the table leads to. */
  function TextAt(b: seq<Byte>, w: nat, k: nat): seq<Byte> {
    UpToNul(b, NumAt(b, NumAt(b, 24, 4) + Scale(4 + w, k), 4))
  }

  function ValueAt(b: seq<Byte>, w: nat, k: nat): nat {
    NumAt(b, NumAt(b, 24, 4) + Scale(4 + w, k) + 4, w)
  }

  /** The entry is one of the table's, and its text is that of the name. */
  predicate Names(b: seq<Byte>, w: nat, k: nat, name: string) {
    k < NumAt(b, 28, 4) && TextAt(b, w, k) == TextBytes(name)
  }

  // ------------------------------------------------------------ texts

  /** What is left of a name as its text is read back: its characters cut to bytes, up to the first NUL. */
  function Stored(name: string): seq<Byte> {
    UpToNul(TextBytes(name), 0)
  }

  /** Names that lose nothing: every character is a byte, and none is NUL. */
  predicate Plain(name: string) {
    forall i :: 0 <= i < |name| ==> 0 < name[i] as int < 256
  }

  /** The plain name with a given text. */
  function PlainOf(text: seq<Byte>): (name: string)
    ensures |name| == |text|
    ensures forall i :: 0 <= i < |text| ==> name[i] as int == text[i]
  {
    seq(|text|, i requires 0 <= i < |text| => text[i] as char)
  }

  lemma {:induction false} TextBytesAt(name: string, i: nat)
    requires i < |name|
    ensures TextBytes(name)[i] == name[i] as int % 256
    decreases |name|
  {
    var init := name[..|name| - 1];
    OneByte(name[|name| - 1] as int);
    if i < |init| {
      TextBytesAt(init, i);
    }
  }

  lemma OneByte(x: nat)
    ensures LE(x, 1) == [x % 256]
  {
    assert LE(x / 256, 0) == [];
  }

  lemma {:induction false} UpToNulIs(b: seq<Byte>, at: nat)
    ensures forall i :: 0 <= i < |UpToNul(b, at)| ==> UpToNul(b, at)[i] != 0
    ensures (forall i :: at <= i < |b| ==> b[i] != 0) && at <= |b| ==> UpToNul(b, at) == b[at..]
    decreases |b| - at
  {
    if at < |b| && b[at] != 0 {
      UpToNulIs(b, at + 1);
      assert b[at..] == [b[at]] + b[at + 1..];
    }
  }

  /** Read from the file, a text that is ended by a NUL is what is left of it. */
  lemma {:induction false} UpToNulHeld(b: seq<Byte>, at: nat, t: seq<Byte>, i: nat)
    requires Holds(b, at, t + [0]) && i <= |t|
    ensures UpToNul(b, at + i) == UpToNul(t, i)
    decreases |t| - i
  {
    assert b[at + i] == (t + [0])[i] by { assert b[at..at + |t + [0]|][i] == b[at + i]; }
    if i < |t| {
      UpToNulHeld(b, at, t, i + 1);
    }
  }

  /** A text without NULs is the text of the plain name with those characters. */
  lemma PlainText(t: seq<Byte>)
    requires forall i :: 0 <= i < |t| ==> t[i] != 0
    ensures Plain(PlainOf(t)) && TextBytes(PlainOf(t)) == t
  {
    hide TextBytes, PlainOf;
    var n := PlainOf(t);
    forall i | 0 <= i < |t| ensures TextBytes(n)[i] == t[i] { TextBytesAt(n, i); }
  }

  lemma PlainStored(name: string)
    requires Plain(name)
    ensures Stored(name) == TextBytes(name) && PlainOf(TextBytes(name)) == name
  {
    hide TextBytes, PlainOf, UpToNul;
    var t := TextBytes(name);
    forall i | 0 <= i < |name| ensures t[i] == name[i] as int && PlainOf(t)[i] == name[i] { TextBytesAt(name, i); }
    UpToNulIs(t, 0);
    assert t[0..] == t;
  }

  /** What is left of a name leads back to the plain name it belongs to. */
  lemma StoredIs(name: string)
    ensures Plain(PlainOf(Stored(name))) && TextBytes(PlainOf(Stored(name))) == Stored(name)
    ensures Plain(name) ==> Stored(name) == TextBytes(name) && PlainOf(Stored(name)) == name
  {
    hide TextBytes, PlainOf, UpToNul, Plain;
    UpToNulIs(TextBytes(name), 0);
    PlainText(Stored(name));
    if Plain(name) {
      PlainStored(name);
    }
  }

  // ------------------------------------------------------------ the names of the file

  /**
    The file says of every plain name the palette cannot spell what the dictionary says: it is in
    the dictionary exactly if some entry of the table names it, and every entry that does has its value.
   */
  ghost predicate ReadsNames(b: seq<Byte>, w: nat, reverse: map<char, nat>, dict: map<string, nat>) {
    forall n :: Plain(n) && !Encodable(reverse, n) ==>
      && (n in dict <==> exists k: nat :: Names(b, w, k, n))
      && (n in dict ==> forall k: nat :: Names(b, w, k, n) ==> ValueAt(b, w, k) == Truncate(dict[n], w))
  }

  /**
    No name of the dictionary is read back as another: where the text that is left of it belongs to
    a plain name the palette cannot spell, that name is in the dictionary with the same value.
   */
  ghost predicate Clear(reverse: map<char, nat>, dict: map<string, nat>, w: nat) {
    forall m :: m in dict && !Encodable(reverse, m) ==>
      var n := PlainOf(Stored(m));
      !Encodable(reverse, n) ==> n in dict && Truncate(dict[n], w) == Truncate(dict[m], w)
  }

  /** The table lists exactly the names of the dictionary the palette cannot spell. */
  ghost predicate Table(b: seq<Byte>, w: nat, reverse: map<char, nat>, keys: seq<string>, dict: map<string, nat>) {
    && NumAt(b, 28, 4) == |keys|
    && (forall s :: s in dict && !Encodable(reverse, s) ==> s in keys)
    && (forall k :: 0 <= k < |keys| ==> keys[k] in dict && !Encodable(reverse, keys[k]) && ListedAt(b, w, k, keys[k], dict[keys[k]]))
  }

  lemma ListedReads(b: seq<Byte>, w: nat, k: nat, name: string, val: nat)
    requires ListedAt(b, w, k, name, val)
    ensures TextAt(b, w, k) == Stored(name) && ValueAt(b, w, k) == Truncate(val, w)
  {
    hide TextBytes, UpToNul, NumAt, Truncate;
    UpToNulHeld(b, NumAt(b, NumAt(b, 24, 4) + Scale(4 + w, k), 4), TextBytes(name), 0);
  }

  /** The names are read back as they are in the dictionary if and only if none is read back as another. */
  lemma NamesReadBack(b: seq<Byte>, w: nat, reverse: map<char, nat>, keys: seq<string>, dict: map<string, nat>)
    requires Table(b, w, reverse, keys, dict)
    ensures ReadsNames(b, w, reverse, dict) <==> Clear(reverse, dict, w)
  {
    hide Names, Stored, PlainOf, Plain, ValueAt, Truncate, Encodable, NumAt;
    if Clear(reverse, dict, w) {
      forall n | Plain(n) && !Encodable(reverse, n)
        ensures n in dict <==> exists k: nat :: Names(b, w, k, n)
        ensures n in dict ==> forall k: nat :: Names(b, w, k, n) ==> ValueAt(b, w, k) == Truncate(dict[n], w)
      {
        if n in dict {
          var k := EntryOf(b, w, reverse, keys, dict, n);
        }
        forall k: nat | Names(b, w, k, n) ensures n in dict && ValueAt(b, w, k) == Truncate(dict[n], w) {
          var m := NameOf(b, w, reverse, keys, dict, k, n);
        }
      }
    }
    if ReadsNames(b, w, reverse, dict) {
      forall m | m in dict && !Encodable(reverse, m) && !Encodable(reverse, PlainOf(Stored(m)))
        ensures var n := PlainOf(Stored(m)); n in dict && Truncate(dict[n], w) == Truncate(dict[m], w)
      {
        StoredIs(m);
        var k := EntryOf(b, w, reverse, keys, dict, m);
        assert Names(b, w, k, PlainOf(Stored(m)));
      }
    }
  }

  lemma EntryOf(b: seq<Byte>, w: nat, reverse: map<char, nat>, keys: seq<string>, dict: map<string, nat>, m: string) returns (k: nat)
    requires Table(b, w, reverse, keys, dict) && m in dict && !Encodable(reverse, m)
    ensures Names(b, w, k, PlainOf(Stored(m))) && ValueAt(b, w, k) == Truncate(dict[m], w)
    ensures Plain(m) ==> Names(b, w, k, m)
  {
    hide TextBytes, UpToNul, NumAt, Truncate, Encodable, ListedAt, TextAt, ValueAt, Stored, PlainOf;
    k :| k < |keys| && keys[k] == m;
    ListedReads(b, w, k, m, dict[m]);
    StoredIs(m);
  }

  lemma NameOf(b: seq<Byte>, w: nat, reverse: map<char, nat>, keys: seq<string>, dict: map<string, nat>, k: nat, n: string) returns (m: string)
    requires Table(b, w, reverse, keys, dict) && Names(b, w, k, n) && Plain(n)
    ensures m in dict && !Encodable(reverse, m) && PlainOf(Stored(m)) == n && ValueAt(b, w, k) == Truncate(dict[m], w)
  {
    hide TextBytes, UpToNul, NumAt, Truncate, Encodable, ListedAt, TextAt, ValueAt, Stored, PlainOf;
    m := keys[k];
    ListedReads(b, w, k, m, dict[m]);
    StoredIs(n);
  }

  /** A dictionary whose names are all plain is clear. */
  lemma PlainIsClear(reverse: map<char, nat>, dict: map<string, nat>, w: nat)
    requires forall m :: m in dict && !Encodable(reverse, m) ==> Plain(m)
    ensures Clear(reverse, dict, w)
  {
    hide Stored, PlainOf, Plain, Truncate, Encodable;
    forall m | m in dict && !Encodable(reverse, m) ensures PlainOf(Stored(m)) == m { StoredIs(m); }
  }

  /**
    Two names that differ in what is cut off have the same text, that of "A". A dictionary that holds
    them is not clear if the palette can spell neither them nor 'A'.
   */
  lemma Collide(reverse: map<char, nat>, w: nat)
    requires '\U{0141}' !in reverse && '\U{0241}' !in reverse && 'A' !in reverse
    ensures var a, b: string := ['\U{0141}'], ['\U{0241}'];
            a != b && TextBytes(a) == TextBytes(b) == TextBytes("A") && !Clear(reverse, map[a := 1, b := 2], w)
  {
    hide TextBytes, PlainOf, UpToNul, Truncate;
    var a, b: string := ['\U{0141}'], ['\U{0241}'];
    OneText('\U{0141}');
    OneText('\U{0241}');
    OneText('A');
    assert "A" == ['A'] && Plain("A");
    StoredIs("A");
    NotSpelled(reverse, '\U{0141}');
    NotSpelled(reverse, 'A');
    var dict := map[a := 1, b := 2];
    assert a in dict && "A" !in dict by { assert a[0] != 'A' && b[0] != 'A'; }
    assert PlainOf(Stored(a)) == "A";
  }

  lemma NotSpelled(reverse: map<char, nat>, c: char)
    requires c !in reverse
    ensures !Encodable(reverse, [c])
  {
    assert [c][0] == c;
  }

  lemma OneText(c: char)
    ensures TextBytes([c]) == [c as int % 256]
  {
    TextBytesAt([c], 0);
  }
}
