/**
  The end of a trie's file (tytrie/Trie.cs): the texts of the symbols the palette cannot spell,
  each ended by a NUL, then a table that gives for each where its text is and its value.
 */
module TrieTail {
  import opened Bytes

  function Scale(w: nat, i: nat): nat {
    if i == 0 then 0 else Scale(w, i - 1) + w
  }

  /** The characters of a text, cut to bytes. */
  function TextBytes(s: string): (b: seq<Byte>)
    ensures |b| == |s|
  {
    if s == [] then [] else TextBytes(s[..|s| - 1]) + LE(s[|s| - 1] as int, 1)
  }

  /** `(int)position`. */
  function Position(n: nat): I32 {
    FromU32(n % 0x1_0000_0000)
  }

  lemma PositionSmall(n: nat)
    requires n < 0x8000_0000
    ensures Position(n) == n
  {
  }

  function Texts(keys: seq<string>): seq<Byte> {
    if keys == [] then [] else Texts(keys[..|keys| - 1]) + (TextBytes(keys[|keys| - 1]) + [0])
  }

  /** Where the text of key `k` is, when the texts begin at `start`. */
  function TextPos(start: nat, keys: seq<string>, k: nat): nat
    requires k <= |keys|
  {
    start + |Texts(keys[..k])|
  }

  function Record(at: nat, val: nat, w: nat): (s: seq<Byte>)
    ensures |s| == 4 + w
  {
    LE(ToU32(Position(at)), 4) + LE(val, w)
  }

  /** The table for the first `n` keys. */
  function Records(start: nat, keys: seq<string>, vals: map<string, nat>, w: nat, n: nat): seq<Byte>
    requires n <= |keys| && forall s :: s in keys ==> s in vals
  {
    if n == 0 then []
    else Records(start, keys, vals, w, n - 1) + Record(TextPos(start, keys, n - 1), vals[keys[n - 1]], w)
  }

  lemma {:induction false} RecordsLength(start: nat, keys: seq<string>, vals: map<string, nat>, w: nat, n: nat)
    requires n <= |keys| && forall s :: s in keys ==> s in vals
    ensures |Records(start, keys, vals, w, n)| == Scale(4 + w, n)
  {
    if n > 0 {
      RecordsLength(start, keys, vals, w, n - 1);
    }
  }

  lemma HoldsParts(b: seq<Byte>, at: nat, x: seq<Byte>, y: seq<Byte>)
    requires Holds(b, at, x + y)
    ensures Holds(b, at, x) && Holds(b, at + |x|, y)
  {
    assert b[at..at + |x + y|][..|x|] == x && b[at..at + |x + y|][|x|..] == y;
  }

  lemma {:induction false} TextHeld(b: seq<Byte>, start: nat, keys: seq<string>, k: nat)
    requires Holds(b, start, Texts(keys)) && k < |keys|
    ensures Holds(b, TextPos(start, keys, k), TextBytes(keys[k]) + [0])
    decreases |keys|
  {
    var init := keys[..|keys| - 1];
    HoldsParts(b, start, Texts(init), TextBytes(keys[|keys| - 1]) + [0]);
    if k < |init| {
      TextHeld(b, start, init, k);
      assert init[..k] == keys[..k];
    }
  }

  lemma {:induction false} RecordHeld(b: seq<Byte>, table: nat, start: nat, keys: seq<string>, vals: map<string, nat>, w: nat, n: nat, k: nat)
    requires n <= |keys| && (forall s :: s in keys ==> s in vals) && Holds(b, table, Records(start, keys, vals, w, n)) && k < n
    ensures Holds(b, table + Scale(4 + w, k), Record(TextPos(start, keys, k), vals[keys[k]], w))
    decreases n
  {
    hide Record, TextPos, LE;
    RecordsLength(start, keys, vals, w, n - 1);
    HoldsParts(b, table, Records(start, keys, vals, w, n - 1), Record(TextPos(start, keys, n - 1), vals[keys[n - 1]], w));
    if k < n - 1 {
      RecordHeld(b, table, start, keys, vals, w, n - 1, k);
    }
  }

  /** The texts and the table are in the file, and the table's offset stands at byte 24. */
  ghost predicate Tail(b: seq<Byte>, start: nat, keys: seq<string>, vals: map<string, nat>, w: nat)
    requires forall s :: s in keys ==> s in vals
  {
    var table := start + |Texts(keys)|;
    && Holds(b, start, Texts(keys)) && Holds(b, table, Records(start, keys, vals, w, |keys|))
    && Holds(b, 24, LE(ToU32(Position(table)), 4))
  }

  /** Entry `k` of the table leads to the text of `name` and holds its value. */
  ghost predicate ListedAt(b: seq<Byte>, w: nat, k: nat, name: string, val: nat) {
    var entry := NumAt(b, 24, 4) + Scale(4 + w, k);
    Holds(b, NumAt(b, entry, 4), TextBytes(name) + [0]) && NumAt(b, entry + 4, w) == Truncate(val, w)
  }

  lemma NumberHeld(b: seq<Byte>, at: nat, x: nat)
    requires x < 0x8000_0000 && Holds(b, at, LE(ToU32(Position(x)), 4))
    ensures NumAt(b, at, 4) == x
  {
    hide NumAt, LE, Pow256;
    PositionSmall(x);
    FitsWord(x);
    NumAtLE(b, at, x, 4);
  }

  /** Every key is found through the table. */
  lemma TailLists(b: seq<Byte>, start: nat, keys: seq<string>, vals: map<string, nat>, w: nat, k: nat)
    requires (forall s :: s in keys ==> s in vals) && Tail(b, start, keys, vals, w) && |b| < 0x8000_0000 && k < |keys|
    ensures ListedAt(b, w, k, keys[k], vals[keys[k]])
  {
    hide NumAt, LE, TextBytes, Texts, Records, Truncate, Position;
    var table := start + |Texts(keys)|;
    NumberHeld(b, 24, table);
    RecordHeld(b, table, start, keys, vals, w, |keys|, k);
    TextHeld(b, start, keys, k);
    var at, entry := TextPos(start, keys, k), table + Scale(4 + w, k);
    HoldsParts(b, entry, LE(ToU32(Position(at)), 4), LE(vals[keys[k]], w));
    NumberHeld(b, entry, at);
    NumAtTruncated(b, entry + 4, vals[keys[k]], w);
  }
}
