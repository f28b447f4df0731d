/** The identifier candidates of the native Rust scanner and their record format (main.rs). */
module Candidates {
  import opened Basics
  import opened Ordering
  import opened Scanner

  const U32_MAX: nat := 0xFFFF_FFFF
  const WORD_DIGITS := 8
  const RECORD_DIGITS := 56

  // ---------- Words ----------

  function HexDigit(n: nat): char
    requires n < 16
  {
    if n < 10 then ('0' as int + n) as char else ('a' as int + n - 10) as char
  }

  function HexValue(c: char): nat {
    if '0' <= c <= '9' then c as int - '0' as int else if 'a' <= c <= 'f' then c as int - 'a' as int + 10 else 0
  }

  function Pow16(n: nat): nat {
    if n == 0 then 1 else 16 * Pow16(n - 1)
  }

  /** The last `width` hexadecimal digits; {value:08x} for eight digits of a u32. */
  function Hex(value: nat, width: nat): (s: string)
    ensures |s| == width
  {
    if width == 0 then [] else Hex(value / 16, width - 1) + [HexDigit(value % 16)]
  }

  function Unhex(s: string): nat {
    if s == [] then 0 else 16 * Unhex(s[..|s| - 1]) + HexValue(s[|s| - 1])
  }

  lemma {:induction false} UnhexHex(value: nat, width: nat)
    requires value < Pow16(width)
    ensures Unhex(Hex(value, width)) == value
  {
    if width > 0 {
      assert value / 16 < Pow16(width - 1);
      UnhexHex(value / 16, width - 1);
      assert Hex(value, width)[..width - 1] == Hex(value / 16, width - 1);
    }
  }

  lemma WordRange()
    ensures Pow16(WORD_DIGITS) == U32_MAX + 1
  {
    assert Pow16(4) == 0x1_0000;
  }

  predicate AreU32(words: seq<nat>) {
    forall i | 0 <= i < |words| :: words[i] <= U32_MAX
  }

  function Spelled(words: seq<nat>): string {
    if words == [] then [] else Hex(words[0], WORD_DIGITS) + Spelled(words[1..])
  }

  function Words(s: string): seq<nat> {
    if |s| < WORD_DIGITS then [] else [Unhex(s[..WORD_DIGITS])] + Words(s[WORD_DIGITS..])
  }

  /** The words of a record come back when each is a u32. */
  lemma {:induction false} WordsBack(words: seq<nat>)
    requires AreU32(words)
    ensures Words(Spelled(words)) == words && |Spelled(words)| == WORD_DIGITS * |words|
  {
    if words != [] {
      WordRange();
      UnhexHex(words[0], WORD_DIGITS);
      WordsBack(words[1..]);
      assert Spelled(words)[..WORD_DIGITS] == Hex(words[0], WORD_DIGITS);
      assert Spelled(words)[WORD_DIGITS..] == Spelled(words[1..]);
      assert words == [words[0]] + words[1..];
    }
  }

  /** push_candidate_word: None when the value exceeds u32. */
  method PushCandidateWord(output: string, value: nat) returns (r: Option<string>)
    ensures r == if value <= U32_MAX then Some(output + Hex(value, WORD_DIGITS)) else None
  {
    if value > U32_MAX {
      return None;
    }
    r := Some(output + Hex(value, WORD_DIGITS));
  }

  lemma {:induction false} SpelledMore(words: seq<nat>, word: nat)
    ensures Spelled(words + [word]) == Spelled(words) + Hex(word, WORD_DIGITS)
  {
    if words == [] {
      assert Spelled([word]) == Hex(word, WORD_DIGITS) + Spelled([]);
    } else {
      assert (words + [word])[1..] == words[1..] + [word];
      SpelledMore(words[1..], word);
    }
  }

  /** The loop that writes one record. */
  method PushRecord(output: string, words: seq<nat>) returns (r: Option<string>)
    ensures r == if AreU32(words) then Some(output + Spelled(words)) else None
  {
    var hex := output;
    for i := 0 to |words|
      invariant hex == output + Spelled(words[..i])
      invariant AreU32(words[..i])
    {
      SpelledMore(words[..i], words[i]);
      assert words[..i + 1] == words[..i] + [words[i]];
      var pushed := PushCandidateWord(hex, words[i]);
      if pushed.None? {
        return None;
      }
      hex := pushed.value;
    }
    assert words[..|words|] == words;
    r := Some(hex);
  }

  // ---------- Hits ----------

  /** An identifier that names a definition of the scope. */
  datatype Hit = Hit(path: nat, name: string, owner: Option<string>, start: Point, end: Point)

  /** The hit of one visited node, if it is one. */
  function HitsAt(path: nat, v: Visit, names: seq<string>): seq<Hit> {
    if v.node.kind in {"identifier", "type_identifier"} && v.node.text in names
    then [Hit(path, v.node.text, v.owner, v.node.start, v.node.end)] else []
  }

  function Hits(path: nat, visits: seq<Visit>, names: seq<string>): seq<Hit> {
    if visits == [] then []
    else Hits(path, visits[..|visits| - 1], names) + HitsAt(path, visits[|visits| - 1], names)
  }

  /** The hits of all files, in order. */
  function AllHits(roots: seq<Node>, names: seq<string>): seq<Hit> {
    if roots == [] then []
    else
      var n := |roots| - 1;
      AllHits(roots[..n], names) + Hits(n, PreOrder(roots[n], None, CandidateOwner), names)
  }

  /** The owners of the hits, each once, in the order of their first use. */
  function FirstUses(hits: seq<Hit>): seq<string> {
    if hits == [] then []
    else
      var table, owner := FirstUses(hits[..|hits| - 1]), hits[|hits| - 1].owner;
      if owner.Some? && owner.value !in table then table + [owner.value] else table
  }

  lemma IndexUnique(s: seq<string>, i: nat)
    requires Unique(s) && i < |s|
    ensures IndexOf(s, s[i]) == i
  {
    var k := IndexOf(s, s[i]);
    assert s[i] in s;
  }

  lemma IndexOfPrefix(s: seq<string>, t: seq<string>, x: string)
    requires s <= t && Unique(t) && x in s
    ensures IndexOf(t, x) == IndexOf(s, x)
  {
    IndexUnique(t, IndexOf(s, x));
  }

  function OwnerWord(owner: Option<string>, table: seq<string>): nat {
    if owner.Some? then IndexOf(table, owner.value) else U32_MAX
  }

  function Record(h: Hit, names: seq<string>, table: seq<string>): seq<nat> {
    [h.path, IndexOf(names, h.name), OwnerWord(h.owner, table), h.start.row + 1, h.start.column + 1, h.end.row + 1, h.end.column + 1]
  }

  function Records(hits: seq<Hit>, names: seq<string>, table: seq<string>): string {
    if hits == [] then [] else Spelled(Record(hits[0], names, table)) + Records(hits[1..], names, table)
  }

  /** Every word of every record is a u32, and every reference resolves. */
  ghost predicate Encodable(hits: seq<Hit>, names: seq<string>, table: seq<string>) {
    forall i | 0 <= i < |hits| :: EncodableHit(hits[i], names, table)
  }

  ghost predicate EncodableHit(h: Hit, names: seq<string>, table: seq<string>) {
    && h.name in names && (h.owner.Some? ==> h.owner.value in table)
    && AreU32(Record(h, names, table))
  }

  lemma {:induction false} RecordsMore(hits: seq<Hit>, h: Hit, names: seq<string>, table: seq<string>)
    ensures Records(hits + [h], names, table) == Records(hits, names, table) + Spelled(Record(h, names, table))
  {
    if hits == [] {
      assert ([h])[1..] == [] && [] + [h] == [h];
    } else {
      assert (hits + [h])[1..] == hits[1..] + [h];
      RecordsMore(hits[1..], h, names, table);
    }
  }

  /** Earlier records keep their meaning when the table of owners grows. */
  lemma {:induction false} RecordsGrow(hits: seq<Hit>, names: seq<string>, table: seq<string>, table': seq<string>)
    requires table <= table' && Unique(table') && Encodable(hits, names, table)
    ensures Records(hits, names, table') == Records(hits, names, table) && Encodable(hits, names, table')
  {
    if hits != [] {
      RecordGrows(hits[0], names, table, table');
      RecordsGrow(hits[1..], names, table, table');
      forall i | 0 <= i < |hits|
        ensures EncodableHit(hits[i], names, table')
      {
        RecordGrows(hits[i], names, table, table');
      }
    }
  }

  lemma RecordGrows(h: Hit, names: seq<string>, table: seq<string>, table': seq<string>)
    requires table <= table' && Unique(table') && EncodableHit(h, names, table)
    ensures Record(h, names, table') == Record(h, names, table) && EncodableHit(h, names, table')
  {
    if h.owner.Some? {
      IndexOfPrefix(table, table', h.owner.value);
    }
  }

  // ---------- Owner interning ----------

  /** The map numbers the owners of the table 0..n-1, one to one. */
  ghost predicate Interned(indexes: map<string, nat>, table: seq<string>) {
    && Unique(table) && |indexes| == |table|
    && forall o {:trigger Numbered(indexes, table, o)} :: Numbered(indexes, table, o)
  }

  ghost predicate Numbered(indexes: map<string, nat>, table: seq<string>, o: string) {
    && (o in indexes <==> o in table)
    && (o in indexes ==> indexes[o] < |table| && table[indexes[o]] == o)
  }

  lemma InternedMore(indexes: map<string, nat>, table: seq<string>, owner: string)
    requires Interned(indexes, table) && owner !in indexes
    ensures Interned(indexes[owner := |indexes|], table + [owner])
  {
    var indexes', table' := indexes[owner := |indexes|], table + [owner];
    assert indexes'.Keys == indexes.Keys + {owner};
    assert Numbered(indexes, table, owner);
    forall o
      ensures Numbered(indexes', table', o)
    {
      assert Numbered(indexes, table, o);
      assert o in table' <==> o in table || o == owner;
    }
  }

  /** *owner_indexes.entry(owner).or_insert(next) */
  method Intern(indexes: map<string, nat>, owner: string, ghost table: seq<string>)
    returns (index: nat, indexes': map<string, nat>, ghost table': seq<string>)
    requires Interned(indexes, table)
    ensures table' == if owner in table then table else table + [owner]
    ensures Interned(indexes', table') && index == IndexOf(table', owner) && owner in table'
  {
    assert Numbered(indexes, table, owner);
    indexes', table' := indexes, table;
    if owner !in indexes {
      var next := |indexes|;
      InternedMore(indexes, table, owner);
      indexes' := indexes[owner := next];
      table' := table + [owner];
    }
    assert Numbered(indexes', table', owner);
    index := indexes'[owner];
    IndexUnique(table', index);
  }

  /** candidate_owners: the inverse of the owner indexes. */
  method OwnerList(indexes: map<string, nat>, ghost table: seq<string>) returns (owners: seq<string>)
    requires Interned(indexes, table)
    ensures owners == table
  {
    owners := seq(|indexes|, _ => "");
    var rest := indexes.Keys;
    while rest != {}
      invariant rest <= indexes.Keys && |owners| == |table|
      invariant forall o | o in indexes && o !in rest :: indexes[o] < |owners| && owners[indexes[o]] == o
      decreases |rest|
    {
      var owner :| owner in rest;
      IndexesApart(indexes, table, owner);
      owners := owners[indexes[owner] := owner];
      rest := rest - {owner};
    }
    forall i | 0 <= i < |table|
      ensures owners[i] == table[i]
    {
      IndexInverts(indexes, table, i);
    }
  }

  lemma IndexesApart(indexes: map<string, nat>, table: seq<string>, owner: string)
    requires Interned(indexes, table) && owner in indexes
    ensures indexes[owner] < |table|
    ensures forall o | o in indexes && o != owner :: indexes[o] != indexes[owner]
    ensures forall o | o in indexes :: indexes[o] < |table|
  {
    forall o | o in indexes
      ensures indexes[o] < |table| && (o != owner ==> indexes[o] != indexes[owner])
    {
      assert Numbered(indexes, table, o) && Numbered(indexes, table, owner);
    }
  }

  lemma IndexInverts(indexes: map<string, nat>, table: seq<string>, i: nat)
    requires Interned(indexes, table) && i < |table|
    ensures table[i] in indexes && indexes[table[i]] == i
  {
    assert table[i] in table && Numbered(indexes, table, table[i]);
  }

  // ---------- The second pass ----------

  /** What the second pass has produced is the encoding of the hits so far. */
  ghost predicate Encodes(hex: string, count: nat, indexes: map<string, nat>, hits: seq<Hit>, names: seq<string>) {
    && hex == Records(hits, names, FirstUses(hits)) && count == |hits|
    && Interned(indexes, FirstUses(hits)) && Encodable(hits, names, FirstUses(hits))
  }

  lemma FirstUsesMore(hits: seq<Hit>, h: Hit)
    ensures FirstUses(hits + [h]) ==
            if h.owner.Some? && h.owner.value !in FirstUses(hits) then FirstUses(hits) + [h.owner.value] else FirstUses(hits)
  {
    assert (hits + [h])[..|hits|] == hits;
  }

  lemma EncodesMore(hex: string, hits: seq<Hit>, h: Hit, names: seq<string>)
    requires hex == Records(hits, names, FirstUses(hits)) && Encodable(hits, names, FirstUses(hits))
    requires EncodableHit(h, names, FirstUses(hits + [h])) && Unique(FirstUses(hits + [h]))
    ensures hex + Spelled(Record(h, names, FirstUses(hits + [h]))) == Records(hits + [h], names, FirstUses(hits + [h]))
    ensures Encodable(hits + [h], names, FirstUses(hits + [h]))
  {
    FirstUsesMore(hits, h);
    RecordsGrow(hits, names, FirstUses(hits), FirstUses(hits + [h]));
    RecordsMore(hits, h, names, FirstUses(hits + [h]));
  }

  /** Some hit needs a word beyond u32 when it is written. */
  ghost predicate Oversized(hits: seq<Hit>, names: seq<string>) {
    exists i: nat :: OversizedAt(hits, names, i)
  }

  ghost predicate OversizedAt(hits: seq<Hit>, names: seq<string>, i: nat) {
    i < |hits| && !AreU32(Record(hits[i], names, FirstUses(hits[..i + 1])))
  }

  lemma OversizedMore(hits: seq<Hit>, hits': seq<Hit>, names: seq<string>)
    requires hits <= hits' && Oversized(hits, names)
    ensures Oversized(hits', names)
  {
    var i: nat :| OversizedAt(hits, names, i);
    assert hits'[..i + 1] == hits[..i + 1];
    assert OversizedAt(hits', names, i);
  }

  lemma {:induction false} HitsPrefix(path: nat, visits: seq<Visit>, visits': seq<Visit>, names: seq<string>)
    requires visits <= visits'
    ensures Hits(path, visits, names) <= Hits(path, visits', names)
  {
    if |visits| < |visits'| {
      HitsPrefix(path, visits, visits'[..|visits'| - 1], names);
    } else {
      assert visits == visits';
    }
  }

  lemma {:induction false} AllHitsPrefix(roots: seq<Node>, i: nat, names: seq<string>)
    requires i <= |roots|
    ensures AllHits(roots[..i], names) <= AllHits(roots, names)
  {
    if i < |roots| {
      assert roots[..|roots| - 1][..i] == roots[..i];
      AllHitsPrefix(roots[..|roots| - 1], i, names);
    } else {
      assert roots[..i] == roots;
    }
  }

  /** The word for an owner, interned when it is new. */
  method InternOwner(indexes: map<string, nat>, ghost hits: seq<Hit>, h: Hit) returns (word: nat, indexes': map<string, nat>)
    requires Interned(indexes, FirstUses(hits))
    ensures Interned(indexes', FirstUses(hits + [h])) && word == OwnerWord(h.owner, FirstUses(hits + [h]))
    ensures h.owner.Some? ==> h.owner.value in FirstUses(hits + [h])
  {
    FirstUsesMore(hits, h);
    word, indexes' := U32_MAX, indexes;
    if h.owner.Some? {
      ghost var table;
      word, indexes', table := Intern(indexes, h.owner.value, FirstUses(hits));
    }
  }

  /** One candidate: its owner is interned, then its seven words are written. */
  method Emit(hex: string, count: nat, indexes: map<string, nat>, h: Hit, nameIndex: nat, ghost hits: seq<Hit>, ghost names: seq<string>)
    returns (ok: bool, hex': string, count': nat, indexes': map<string, nat>)
    requires Encodes(hex, count, indexes, hits, names) && h.name in names && nameIndex == IndexOf(names, h.name)
    ensures ok ==> Encodes(hex', count', indexes', hits + [h], names)
    ensures !ok ==> Oversized(hits + [h], names)
  {
    var ownerWord;
    ownerWord, indexes' := InternOwner(indexes, hits, h);
    var words := [h.path, nameIndex, ownerWord, h.start.row + 1, h.start.column + 1, h.end.row + 1, h.end.column + 1];
    ghost var record := Record(h, names, FirstUses(hits + [h]));
    assert words == record;
    var r := PushRecord(hex, words);
    ok := r.Some?;
    hex', count' := hex, count;
    if !ok {
      assert (hits + [h])[..|hits| + 1] == hits + [h];
      assert OversizedAt(hits + [h], names, |hits|);
    } else {
      assert EncodableHit(h, names, FirstUses(hits + [h]));
      EncodesMore(hex, hits, h, names);
      hex', count' := r.value, count + 1;
    }
  }

  lemma HitsMore(path: nat, visits: seq<Visit>, v: Visit, names: seq<string>)
    ensures Hits(path, visits + [v], names) == Hits(path, visits, names) + HitsAt(path, v, names)
  {
    assert (visits + [v])[..|visits|] == visits;
  }

  /** name_indexes: the position of each candidate name. */
  ghost predicate IsIndex(nameIndexes: map<string, nat>, names: seq<string>) {
    (forall name :: name in nameIndexes <==> name in names) && forall name | name in names :: nameIndexes[name] == IndexOf(names, name)
  }

  method IndexNames(names: seq<string>) returns (nameIndexes: map<string, nat>)
    requires Unique(names)
    ensures IsIndex(nameIndexes, names)
  {
    nameIndexes := map[];
    for i := 0 to |names|
      invariant forall name :: name in nameIndexes <==> name in names[..i]
      invariant forall name | name in nameIndexes :: nameIndexes[name] == IndexOf(names, name)
    {
      IndexUnique(names, i);
      assert names[..i + 1] == names[..i] + [names[i]];
      nameIndexes := nameIndexes[names[i] := i];
    }
    assert names[..|names|] == names;
  }

  /** One visited node. */
  method VisitCandidate(top: Visit, path: nat, nameIndexes: map<string, nat>, hex: string, count: nat, indexes: map<string, nat>,
                        ghost names: seq<string>, ghost hits: seq<Hit>)
    returns (ok: bool, hex': string, count': nat, indexes': map<string, nat>)
    requires IsIndex(nameIndexes, names) && Encodes(hex, count, indexes, hits, names)
    ensures if ok then Encodes(hex', count', indexes', hits + HitsAt(path, top, names), names)
            else Oversized(hits + HitsAt(path, top, names), names)
  {
    ok, hex', count', indexes' := true, hex, count, indexes;
    assert hits + [] == hits;
    if top.node.kind in {"identifier", "type_identifier"} && top.node.text in nameIndexes {
      var h := Hit(path, top.node.text, top.owner, top.node.start, top.node.end);
      ok, hex', count', indexes' := Emit(hex', count', indexes', h, nameIndexes[h.name], hits, names);
    }
  }

  lemma HitsFollow(before: seq<Hit>, path: nat, seen: seq<Visit>, v: Visit, names: seq<string>)
    ensures before + Hits(path, seen + [v], names) == before + Hits(path, seen, names) + HitsAt(path, v, names)
  {
    HitsMore(path, seen, v, names);
  }

  /** A failure at a node of a file is a failure of the file. */
  lemma FailsWhole(before: seq<Hit>, path: nat, seen: seq<Visit>, v: Visit, all: seq<Visit>, names: seq<string>)
    requires seen + [v] <= all && Oversized(before + Hits(path, seen, names) + HitsAt(path, v, names), names)
    ensures Oversized(before + Hits(path, all, names), names)
  {
    HitsFollow(before, path, seen, v, names);
    HitsPrefix(path, seen + [v], all, names);
    OversizedMore(before + Hits(path, seen + [v], names), before + Hits(path, all, names), names);
  }

  /** The hits of a file follow those of the files before it. */
  method CollectCandidates(root: Node, path: nat, nameIndexes: map<string, nat>, hex: string, count: nat, indexes: map<string, nat>,
                           ghost names: seq<string>, ghost before: seq<Hit>)
    returns (ok: bool, hex': string, count': nat, indexes': map<string, nat>)
    requires IsIndex(nameIndexes, names) && Encodes(hex, count, indexes, before, names)
    ensures ok ==> Encodes(hex', count', indexes', before + Hits(path, PreOrder(root, None, CandidateOwner), names), names)
    ensures !ok ==> Oversized(before + Hits(path, PreOrder(root, None, CandidateOwner), names), names)
  {
    ok, hex', count', indexes' := true, hex, count, indexes;
    var stack := [Visit(root, None)];
    ghost var all, seen: seq<Visit> := PreOrder(root, None, CandidateOwner), [];
    WalkStarts(root, CandidateOwner);
    ghost var hits := before;
    while stack != []
      invariant Walking(all, seen, stack, CandidateOwner) && hits == before + Hits(path, seen, names)
      invariant Encodes(hex', count', indexes', hits, names)
      decreases StackSize(stack)
    {
      var top := stack[|stack| - 1];
      ok, hex', count', indexes' := VisitCandidate(top, path, nameIndexes, hex', count', indexes', names, hits);
      if !ok {
        WalkPrefix(all, seen, stack, CandidateOwner);
        FailsWhole(before, path, seen, top, all, names);
        return;
      }
      HitsFollow(before, path, seen, top, names);
      hits := hits + HitsAt(path, top, names);
      stack := Advance(stack, CandidateOwner(top.node, top.owner), CandidateOwner, all, seen);
      seen := seen + [top];
    }
    WalkEnds(all, seen, CandidateOwner);
  }

  datatype Output = Output(names: seq<string>, owners: seq<string>, count: nat, hex: string)

  /** The second pass over all files: None when a value exceeds u32. */
  method SecondPass(roots: seq<Node>, names: seq<string>) returns (r: Option<Output>)
    requires Unique(names)
    ensures r.Some? ==> var hits := AllHits(roots, names);
      && r.value.names == names && r.value.owners == FirstUses(hits) && r.value.count == |hits|
      && r.value.hex == Records(hits, names, r.value.owners)
      && Unique(r.value.owners) && Encodable(hits, names, r.value.owners)
    ensures r.None? ==> Oversized(AllHits(roots, names), names)
  {
    var nameIndexes := IndexNames(names);
    var hex, count, indexes: map<string, nat> := "", 0, map[];
    for i := 0 to |roots|
      invariant Encodes(hex, count, indexes, AllHits(roots[..i], names), names)
    {
      assert roots[..i + 1][..i] == roots[..i];
      var ok;
      ok, hex, count, indexes := CollectCandidates(roots[i], i, nameIndexes, hex, count, indexes, names, AllHits(roots[..i], names));
      if !ok {
        AllHitsPrefix(roots, i + 1, names);
        OversizedMore(AllHits(roots[..i + 1], names), AllHits(roots, names), names);
        return None;
      }
    }
    assert roots[..|roots|] == roots;
    var owners := OwnerList(indexes, FirstUses(AllHits(roots, names)));
    r := Some(Output(names, owners, count, hex));
  }

  // ---------- Reading the records ----------

  /** What a record of seven words says, if it says anything. */
  function ReadHit(words: seq<nat>, names: seq<string>, owners: seq<string>): Option<Hit> {
    if |words| == 7 && words[1] < |names| && (words[2] == U32_MAX || words[2] < |owners|)
       && words[3] > 0 && words[4] > 0 && words[5] > 0 && words[6] > 0
    then Some(Hit(words[0], names[words[1]], if words[2] == U32_MAX then None else Some(owners[words[2]]),
                  Point(words[3] - 1, words[4] - 1), Point(words[5] - 1, words[6] - 1)))
    else None
  }

  /** The hits of a string of records; unreadable records are left out. */
  function Read(hex: string, names: seq<string>, owners: seq<string>): seq<Hit> {
    if |hex| < RECORD_DIGITS then []
    else
      var first := ReadHit(Words(hex[..RECORD_DIGITS]), names, owners);
      (if first.Some? then [first.value] else []) + Read(hex[RECORD_DIGITS..], names, owners)
  }

  lemma RecordBack(h: Hit, names: seq<string>, owners: seq<string>)
    requires EncodableHit(h, names, owners) && |owners| <= U32_MAX
    ensures ReadHit(Words(Spelled(Record(h, names, owners))), names, owners) == Some(h)
    ensures |Spelled(Record(h, names, owners))| == RECORD_DIGITS
  {
    WordsBack(Record(h, names, owners));
  }

  /** Fixed-width records read back to the hits they were written from. */
  lemma {:induction false} ReadBack(hits: seq<Hit>, names: seq<string>, owners: seq<string>)
    requires Encodable(hits, names, owners) && |owners| <= U32_MAX
    ensures Read(Records(hits, names, owners), names, owners) == hits
    ensures |Records(hits, names, owners)| == RECORD_DIGITS * |hits|
  {
    if hits != [] {
      RecordBack(hits[0], names, owners);
      ReadBack(hits[1..], names, owners);
      var hex := Records(hits, names, owners);
      assert hex[..RECORD_DIGITS] == Spelled(Record(hits[0], names, owners));
      assert hex[RECORD_DIGITS..] == Records(hits[1..], names, owners);
      assert hits == [hits[0]] + hits[1..];
    }
  }

  // ---------- The whole scan ----------

  /** The names that candidates are looked up by: those of all facts but uses and macro calls. */
  ghost function DefinedNames(facts: seq<Fact>): set<string> {
    set f | f in facts && f.kind !in {"use_declaration", "macro_invocation"} :: f.name
  }

  function AllFacts(roots: seq<Node>): seq<Fact> {
    if roots == [] then []
    else AllFacts(roots[..|roots| - 1]) + Facts(PreOrder(roots[|roots| - 1], None, FactOwner))
  }

  method FirstPass(roots: seq<Node>) returns (facts: seq<Fact>)
    ensures facts == AllFacts(roots)
  {
    facts := [];
    for i := 0 to |roots|
      invariant facts == AllFacts(roots[..i])
    {
      assert roots[..i + 1][..i] == roots[..i];
      var more := CollectFacts(roots[i]);
      facts := facts + more;
    }
    assert roots[..|roots|] == roots;
  }

  /** Both passes over the parsed files. What is written reads back as every
      identifier that names a definition, under the owners of the first pass.
      The number of owners stays below u32::MAX because each takes source bytes,
      of which there are at most 512 MiB. */
  method Scan(roots: seq<Node>) returns (facts: seq<Fact>, r: Option<Output>)
    ensures facts == AllFacts(roots)
    ensures r.Some? ==> Lists(r.value.names, DefinedNames(facts)) && Unique(r.value.owners)
    ensures r.Some? && |r.value.owners| <= U32_MAX ==>
      && Read(r.value.hex, r.value.names, r.value.owners) == AllHits(roots, r.value.names)
      && |r.value.hex| == RECORD_DIGITS * r.value.count
    ensures r.None? ==> exists names :: Lists(names, DefinedNames(facts)) && Oversized(AllHits(roots, names), names)
  {
    facts := FirstPass(roots);
    var defined := set f | f in facts && f.kind !in {"use_declaration", "macro_invocation"} :: f.name;
    var names := SortedSet(defined);
    r := SecondPass(roots, names);
    if r.Some? && |r.value.owners| <= U32_MAX {
      ReadBack(AllHits(roots, names), names, r.value.owners);
    }
  }
}
