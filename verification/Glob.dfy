/** The memoised glob matcher of the ignore file (cbmignore.py). */
module Glob {
  import opened Basics

  // ---------- What a pattern means ----------

  /** One step of a pattern.  "**" followed by "/" swallows whole leading segments. */
  datatype Token = DeepSlash | Deep | Star | Question | Class(body: string) | Literal(c: char)

  /** The first offset of `c` in `s` at or after `start`, or |s|. */
  function Find(s: string, c: char, start: nat): (i: nat)
    requires start <= |s|
    ensures start <= i <= |s| && (i < |s| ==> s[i] == c)
    ensures forall j | start <= j < i :: s[j] != c
    decreases |s| - start
  {
    if start == |s| || s[start] == c then start else Find(s, c, start + 1)
  }

  /** The token at offset `o` and the offset after it. */
  function TokenAt(p: string, o: nat): (r: (Token, nat))
    requires o < |p|
    ensures o < r.1 <= |p|
  {
    if o + 1 < |p| && p[o] == '*' && p[o + 1] == '*' then
      if o + 2 < |p| && p[o + 2] == '/' then (DeepSlash, o + 3) else (Deep, o + 2)
    else if p[o] == '*' then (Star, o + 1)
    else if p[o] == '?' then (Question, o + 1)
    else if p[o] == '[' then
      var end := Find(p, ']', o + 1);
      if end == |p| then (Literal('['), o + 1) else (Class(p[o + 1..end]), end + 1)
    else (Literal(p[o]), o + 1)
  }

  function Tokens(p: string, o: nat): seq<Token>
    requires o <= |p|
    decreases |p| - o
  {
    if o == |p| then [] else [TokenAt(p, o).0] + Tokens(p, TokenAt(p, o).1)
  }

  /** The items of a character class: "a-z" is a range, anything else stands for itself. */
  datatype Item = Item(low: char, high: char)

  function Items(body: string): seq<Item> {
    if body == [] then [] else [FirstItem(body)] + Items(body[ItemWidth(body)..])
  }

  function ItemWidth(body: string): (width: nat)
    requires body != []
    ensures 0 < width <= |body|
  {
    if |body| > 2 && body[1] == '-' then 3 else 1
  }

  function FirstItem(body: string): Item
    requires body != []
  {
    Item(body[0], body[ItemWidth(body) - 1])
  }

  ghost predicate Covers(items: seq<Item>, c: char) {
    exists item | item in items :: item.low <= c <= item.high
  }

  predicate Inverted(body: string) {
    body != [] && body[0] in {'!', '^'}
  }

  function Positive(body: string): string {
    if Inverted(body) then body[1..] else body
  }

  ghost predicate InClass(body: string, c: char) {
    Covers(Items(Positive(body)), c) <==> !Inverted(body)
  }

  /** The words one token stands for. */
  ghost predicate Word(t: Token, w: string) {
    match t
    case DeepSlash => w == [] || w[|w| - 1] == '/'
    case Deep => true
    case Star => '/' !in w
    case Question => |w| == 1 && w[0] != '/'
    case Class(body) => |w| == 1 && InClass(body, w[0])
    case Literal(c) => w == [c]
  }

  function Concat(words: seq<string>): string {
    if words == [] then [] else words[0] + Concat(words[1..])
  }

  /** `v` can be cut into one word for every token. */
  ghost predicate Denotes(tokens: seq<Token>, v: string) {
    exists words: seq<string> :: Spells(tokens, words, v)
  }

  ghost predicate Spells(tokens: seq<Token>, words: seq<string>, v: string) {
    && |words| == |tokens| && Concat(words) == v
    && forall k | 0 <= k < |tokens| :: Word(tokens[k], words[k])
  }

  /** The pattern from offset `o` on matches the value from offset `i` on. */
  ghost predicate Matches(p: string, o: nat, v: string, i: nat)
    requires o <= |p| && i <= |v|
  {
    Denotes(Tokens(p, o), v[i..])
  }

  lemma MatchesEnd(p: string, v: string, i: nat)
    requires i <= |v|
    ensures Matches(p, |p|, v, i) <==> i == |v|
  {
    if i == |v| {
      assert Spells([], [], v[i..]);
    }
  }

  /** One word for the first token, the rest for the others. */
  ghost predicate Splits(p: string, o: nat, v: string, i: nat, j: nat)
    requires o < |p| && i <= j <= |v|
  {
    Word(TokenAt(p, o).0, v[i..j]) && Matches(p, TokenAt(p, o).1, v, j)
  }

  lemma MatchesStep(p: string, o: nat, v: string, i: nat)
    requires o < |p| && i <= |v|
    ensures Matches(p, o, v, i) <==> exists j | i <= j <= |v| :: Splits(p, o, v, i, j)
  {
    var tokens := Tokens(p, o);
    var rest := Tokens(p, TokenAt(p, o).1);
    assert tokens == [TokenAt(p, o).0] + rest;
    if Matches(p, o, v, i) {
      var words :| Spells(tokens, words, v[i..]);
      var j := i + |words[0]|;
      assert v[i..] == words[0] + Concat(words[1..]);
      assert v[i..j] == words[0] && v[j..] == Concat(words[1..]);
      assert Spells(rest, words[1..], v[j..]) by {
        forall k | 0 <= k < |rest|
          ensures Word(rest[k], words[1..][k])
        {
          assert Word(tokens[k + 1], words[k + 1]);
        }
      }
      assert Word(tokens[0], words[0]);
      assert Splits(p, o, v, i, j);
    }
    if j :| i <= j <= |v| && Splits(p, o, v, i, j) {
      var words :| Spells(rest, words, v[j..]);
      var all := [v[i..j]] + words;
      assert all[1..] == words && v[i..] == v[i..j] + v[j..];
      assert Spells(tokens, all, v[i..]);
    }
  }

  // ---------- Patterns, step by step ----------

  lemma {:induction false} FindSuffix(p: string, c: char, k: nat, start: nat)
    requires k + start <= |p|
    ensures Find(p[k..], c, start) == Find(p, c, k + start) - k
    decreases |p| - k - start
  {
    if k + start < |p| && p[k + start] != c {
      FindSuffix(p, c, k, start + 1);
    }
  }

  lemma TokenSuffix(p: string, k: nat, o: nat)
    requires k + o < |p|
    ensures TokenAt(p[k..], o) == (TokenAt(p, k + o).0, TokenAt(p, k + o).1 - k)
  {
    FindSuffix(p, ']', k, o + 1);
    var end := Find(p, ']', k + o + 1);
    assert p[k..][o + 1..end - k] == p[k + o + 1..end];
  }

  lemma {:induction false} TokensSuffix(p: string, k: nat, o: nat)
    requires k + o <= |p|
    ensures Tokens(p[k..], o) == Tokens(p, k + o)
    decreases |p| - k - o
  {
    if k + o < |p| {
      TokenSuffix(p, k, o);
      TokensSuffix(p, k, TokenAt(p, k + o).1 - k);
    }
  }

  /** A whole pattern matches a whole value. */
  ghost predicate Means(p: string, v: string) {
    Matches(p, 0, v, 0)
  }

  lemma MeansRest(p: string, k: nat, v: string, j: nat)
    requires k <= |p| && j <= |v|
    ensures Matches(p, k, v, j) <==> Means(p[k..], v[j..])
  {
    TokensSuffix(p, k, 0);
    assert v[j..][0..] == v[j..];
  }

  /** One word of the first token, and the rest of the pattern for the rest. */
  lemma MeansFirst(p: string, v: string)
    requires p != []
    ensures Means(p, v) <==>
      exists j | 0 <= j <= |v| :: Word(TokenAt(p, 0).0, v[..j]) && Means(p[TokenAt(p, 0).1..], v[j..])
  {
    MatchesStep(p, 0, v, 0);
    forall j | 0 <= j <= |v|
      ensures Splits(p, 0, v, 0, j) <==> Word(TokenAt(p, 0).0, v[..j]) && Means(p[TokenAt(p, 0).1..], v[j..])
    {
      MeansRest(p, TokenAt(p, 0).1, v, j);
      assert v[0..j] == v[..j];
    }
  }

  lemma EmptyMeans(v: string)
    ensures Means("", v) <==> v == ""
  {
    MatchesEnd("", v, 0);
  }

  /** "*" stands for anything within one segment. */
  lemma StarMeans(rest: string, v: string)
    requires rest == [] || rest[0] != '*'
    ensures Means("*" + rest, v) <==> exists j | 0 <= j <= |v| :: '/' !in v[..j] && Means(rest, v[j..])
  {
    var p := "*" + rest;
    assert TokenAt(p, 0) == (Star, 1) && p[1..] == rest;
    MeansFirst(p, v);
  }

  /** "**" stands for anything at all. */
  lemma DeepMeans(rest: string, v: string)
    requires rest == [] || rest[0] != '/'
    ensures Means("**" + rest, v) <==> exists j | 0 <= j <= |v| :: Means(rest, v[j..])
  {
    var p := "**" + rest;
    assert TokenAt(p, 0) == (Deep, 2) && p[2..] == rest;
    MeansFirst(p, v);
  }

  /** A leading double star and slash stands for any number of whole segments. */
  lemma DeepSlashMeans(rest: string, v: string)
    ensures Means("**/" + rest, v) <==> exists j | 0 <= j <= |v| :: (j == 0 || v[j - 1] == '/') && Means(rest, v[j..])
  {
    var p := "**/" + rest;
    assert TokenAt(p, 0) == (DeepSlash, 3) && p[3..] == rest;
    MeansFirst(p, v);
    forall j | 0 <= j <= |v|
      ensures Word(DeepSlash, v[..j]) <==> j == 0 || v[j - 1] == '/'
    {
    }
  }

  /** What one character of the value has to be. */
  lemma OneMeans(p: string, k: nat, v: string)
    requires p != [] && k <= |p| && TokenAt(p, 0).1 == k && (TokenAt(p, 0).0.Question? || TokenAt(p, 0).0.Class? || TokenAt(p, 0).0.Literal?)
    ensures Means(p, v) <==> v != [] && Word(TokenAt(p, 0).0, [v[0]]) && Means(p[k..], v[1..])
  {
    MeansFirst(p, v);
    if v != [] {
      assert v[..1] == [v[0]];
    }
  }

  lemma QuestionMeans(rest: string, v: string)
    ensures Means("?" + rest, v) <==> v != [] && v[0] != '/' && Means(rest, v[1..])
  {
    var p := "?" + rest;
    assert TokenAt(p, 0) == (Question, 1) && p[1..] == rest;
    OneMeans(p, 1, v);
  }

  lemma LiteralMeans(c: char, rest: string, v: string)
    requires c !in {'*', '?', '['}
    ensures Means([c] + rest, v) <==> v != [] && v[0] == c && Means(rest, v[1..])
  {
    var p := [c] + rest;
    assert TokenAt(p, 0) == (Literal(c), 1) && p[1..] == rest;
    OneMeans(p, 1, v);
  }

  /** A bracket that is never closed stands for itself. */
  lemma UnclosedMeans(rest: string, v: string)
    requires ']' !in rest
    ensures Means("[" + rest, v) <==> v != [] && v[0] == '[' && Means(rest, v[1..])
  {
    var p := "[" + rest;
    assert Find(p, ']', 1) == |p| && p[1..] == rest;
    assert TokenAt(p, 0) == (Literal('['), 1);
    OneMeans(p, 1, v);
  }

  lemma ClassMeans(body: string, rest: string, v: string)
    requires ']' !in body
    ensures Means("[" + body + "]" + rest, v) <==> v != [] && InClass(body, v[0]) && Means(rest, v[1..])
  {
    var p := "[" + body + "]" + rest;
    var end := |body| + 1;
    assert p[end] == ']' && p[1..end] == body && p[end + 1..] == rest;
    assert forall j | 1 <= j < end :: p[j] == body[j - 1];
    assert Find(p, ']', 1) == end;
    assert TokenAt(p, 0) == (Class(body), end + 1);
    OneMeans(p, end + 1, v);
  }

  /** A class of one range, and its complement. */
  lemma RangeMeans(low: char, high: char, c: char)
    requires low !in {'!', '^'}
    ensures InClass([low, '-', high], c) <==> low <= c <= high
    ensures InClass(['!', low, '-', high], c) <==> !(low <= c <= high)
    ensures InClass([low], c) <==> c == low
  {
    var body := [low, '-', high];
    CoversFirst(body, c);
    assert body[3..] == [] && Items([]) == [];
    assert ['!', low, '-', high][1..] == body;
    CoversFirst([low], c);
    assert [low][1..] == [];
  }

  // ---------- Character classes ----------

  /** _character_class: the answer for one character and the offset after the class. */
  method CharacterClass(p: string, o: nat, c: char) returns (matched: bool, after: nat)
    requires o < |p| && p[o] == '['
    ensures after == TokenAt(p, o).1
    ensures matched <==> Word(TokenAt(p, o).0, [c])
  {
    var end := Find(p, ']', o + 1);
    if end == |p| {
      assert TokenAt(p, o).0 == Literal('[');
      return c == '[', o + 1;
    }
    var full := p[o + 1..end];
    matched := ClassItems(Positive(full), c);
    assert TokenAt(p, o).0 == Class(full);
    if Inverted(full) {
      matched := !matched;
    }
    after := end + 1;
  }

  /** The loop over the items of a class. */
  method ClassItems(body: string, c: char) returns (matched: bool)
    ensures matched <==> Covers(Items(body), c)
  {
    matched := false;
    var index := 0;
    assert body[0..] == body;
    while index < |body|
      invariant 0 <= index <= |body|
      invariant Covers(Items(body), c) <==> matched || Covers(Items(body[index..]), c)
    {
      CoversFrom(body, index, c);
      if index + 2 < |body| && body[index + 1] == '-' {
        matched := matched || body[index] <= c <= body[index + 2];
        index := index + 3;
      } else {
        matched := matched || body[index] == c;
        index := index + 1;
      }
    }
    assert body[index..] == [];
  }

  lemma CoversFirst(body: string, c: char)
    requires body != []
    ensures Covers(Items(body), c) <==>
              FirstItem(body).low <= c <= FirstItem(body).high || Covers(Items(body[ItemWidth(body)..]), c)
  {
    CoversNext(FirstItem(body), Items(body[ItemWidth(body)..]), c);
  }

  lemma CoversFrom(body: string, index: nat, c: char)
    requires index < |body|
    ensures Covers(Items(body[index..]), c) <==>
              if index + 2 < |body| && body[index + 1] == '-'
              then body[index] <= c <= body[index + 2] || Covers(Items(body[index + 3..]), c)
              else body[index] == c || Covers(Items(body[index + 1..]), c)
  {
    var rest := body[index..];
    CoversFirst(rest, c);
    assert rest[ItemWidth(rest)..] == body[index + ItemWidth(rest)..];
  }

  lemma CoversNext(first: Item, rest: seq<Item>, c: char)
    ensures Covers([first] + rest, c) <==> first.low <= c <= first.high || Covers(rest, c)
  {
    assert forall item :: item in [first] + rest <==> item == first || item in rest;
    if first.low <= c <= first.high {
      assert first in [first] + rest;
    }
  }

  // ---------- The matcher ----------

  const BUDGET := 20_000

  type Key = (nat, nat)

  /** The offsets a match can be called with. */
  ghost function Grid(p: string, v: string): set<Key> {
    set o, i | 0 <= o <= |p| && 0 <= i <= |v| :: (o, i)
  }

  /** One call of _glob_matches: its remaining budget and its cache.  `started`
      holds every pair of offsets that has used up budget. */
  class Matcher {
    const pattern: string
    const value: string
    var budget: int
    var memo: map<Key, bool>
    ghost var started: set<Key>

    /** Cached answers are never wrongly true and, as long as the budget lasts,
        never wrong. */
    ghost predicate Valid()
      reads this
    {
      && budget == BUDGET - |started| && memo.Keys <= started <= Grid(pattern, value)
      && forall k | k in memo :: CacheAgrees(k, memo[k])
    }

    ghost predicate CacheAgrees(k: Key, answer: bool)
      reads this
    {
      && k in Grid(pattern, value)
      && Answers(k.0, k.1, answer)
    }

    ghost predicate Answers(o: nat, i: nat, answer: bool)
      requires o <= |pattern| && i <= |value|
      reads this
    {
      && (answer ==> Matches(pattern, o, value, i))
      && (budget > 0 && Matches(pattern, o, value, i) ==> answer)
    }

    /** The calls that have started and not yet been cached. */
    ghost function Running(): set<Key>
      reads this
    {
      started - memo.Keys
    }

    /** They started at smaller pattern offsets. */
    ghost predicate RunningBelow(o: nat)
      reads this
    {
      forall k | k in Running() :: k.0 < o
    }

    constructor (pattern: string, value: string)
      ensures Valid() && RunningBelow(0) && this.pattern == pattern && this.value == value && started == {}
    {
      this.pattern, this.value := pattern, value;
      budget, memo, started := BUDGET, map[], {};
    }

    /** match(pattern_offset, value_offset) with its cache. */
    method Match(o: nat, i: nat) returns (answer: bool)
      requires Valid() && o <= |pattern| && i <= |value| && RunningBelow(o)
      modifies this
      ensures Valid() && Answers(o, i, answer)
      ensures budget <= old(budget) && memo.Keys >= old(memo).Keys
      ensures (o, i) !in old(memo) && old(budget) <= 1 ==> !answer
      ensures Running() == old(Running()) && started >= old(started)
      decreases |pattern| - o, 1
    {
      var key := (o, i);
      if key in memo {
        return memo[key];
      }
      assert key !in started by {
        assert key !in Running();
      }
      assert key in Grid(pattern, value);
      budget := budget - 1;
      started := started + {key};
      assert Running() == old(Running()) + {key};
      if budget <= 0 {
        answer := false;
      } else {
        answer := Compute(o, i);
      }
      Remember(key, answer);
    }

    /** The answer of a call that has started goes into the cache. */
    method Remember(key: Key, answer: bool)
      requires Valid() && key in Running() && CacheAgrees(key, answer)
      modifies this`memo
      ensures Valid() && memo == old(memo)[key := answer] && Running() == old(Running()) - {key}
    {
      ghost var before := memo;
      memo := memo[key := answer];
      forall k | k in memo
        ensures CacheAgrees(k, memo[k])
      {
        assert k != key ==> k in before && memo[k] == before[k];
      }
    }

    /** The body of match. */
    method Compute(o: nat, i: nat) returns (answer: bool)
      requires Valid() && o <= |pattern| && i <= |value| && RunningBelow(o + 1)
      modifies this
      ensures Valid() && Answers(o, i, answer)
      ensures budget <= old(budget) && memo.Keys >= old(memo).Keys
      ensures Running() == old(Running()) && started >= old(started)
      decreases |pattern| - o, 0
    {
      if o == |pattern| {
        MatchesEnd(pattern, value, i);
        return i == |value|;
      }
      MatchesStep(pattern, o, value, i);
      var (token, after) := TokenAt(pattern, o);
      match token {
        case DeepSlash =>
          answer := AnySplit(o, i);
        case Deep =>
          answer := AnySplit(o, i);
        case Star =>
          answer := AnySplit(o, i);
        case _ =>
          if i == |value| {
            return false;
          }
          answer := OneCharacter(o, i);
      }
    }

    /** Whether value[i..j] is a word of a starred token. */
    predicate StarWord(token: Token, i: nat, j: nat)
      requires i <= j <= |value| && (token.DeepSlash? || token.Deep? || token.Star?)
      ensures StarWord(token, i, j) <==> Word(token, value[i..j])
    {
      match token
      case DeepSlash => j == i || value[j - 1] == '/'
      case Deep => true
      case Star => '/' !in value[i..j]
    }

    /** Tries every word of a starred token, shortest first. */
    method AnySplit(o: nat, i: nat) returns (answer: bool)
      requires Valid() && o < |pattern| && i <= |value| && RunningBelow(o + 1)
      requires var token := TokenAt(pattern, o).0; token.DeepSlash? || token.Deep? || token.Star?
      modifies this
      ensures Valid() && budget <= old(budget) && memo.Keys >= old(memo).Keys
      ensures Running() == old(Running()) && started >= old(started)
      ensures answer ==> exists j | i <= j <= |value| :: Splits(pattern, o, value, i, j)
      ensures budget > 0 && !answer ==> forall j | i <= j <= |value| :: !Splits(pattern, o, value, i, j)
      decreases |pattern| - o, 0, 1
    {
      var (token, after) := TokenAt(pattern, o);
      for j := i to |value| + 1
        invariant Valid() && RunningBelow(o + 1) && budget <= old(budget) && memo.Keys >= old(memo).Keys
        invariant Running() == old(Running()) && started >= old(started)
        invariant budget > 0 ==> forall k | i <= k < j :: !Splits(pattern, o, value, i, k)
      {
        if StarWord(token, i, j) {
          var rest := Match(after, j);
          if rest {
            assert Splits(pattern, o, value, i, j);
            return true;
          }
        }
      }
      answer := false;
    }

    /** A token that stands for exactly one character. */
    method OneCharacter(o: nat, i: nat) returns (answer: bool)
      requires Valid() && o < |pattern| && i < |value| && RunningBelow(o + 1)
      requires var token := TokenAt(pattern, o).0; token.Question? || token.Class? || token.Literal?
      modifies this
      ensures Valid() && budget <= old(budget) && memo.Keys >= old(memo).Keys
      ensures Running() == old(Running()) && started >= old(started)
      ensures answer ==> Splits(pattern, o, value, i, i + 1)
      ensures budget > 0 && !answer ==> forall j | i <= j <= |value| :: !Splits(pattern, o, value, i, j)
      decreases |pattern| - o, 0, 1
    {
      var (token, after) := TokenAt(pattern, o);
      var c := value[i];
      assert value[i..i + 1] == [c];
      forall j | i <= j <= |value| && Word(token, value[i..j])
        ensures j == i + 1
      {
        assert |value[i..j]| == j - i;
      }
      var matched, next := c == pattern[o], o + 1;
      if pattern[o] == '?' {
        matched := c != '/';
      } else if pattern[o] == '[' {
        matched, next := CharacterClass(pattern, o, c);
      }
      answer := false;
      if matched {
        answer := Match(next, i + 1);
      }
    }
  }

  // ---------- The whole match ----------

  /** _glob_matches never claims a match that the pattern does not mean, and is
      exactly what the pattern means whenever the grid of offsets is smaller than
      the budget. */
  method GlobMatches(pattern: string, value: string) returns (answer: bool)
    ensures answer ==> Denotes(Tokens(pattern, 0), value)
    ensures (|pattern| + 1) * (|value| + 1) < BUDGET ==> (answer <==> Denotes(Tokens(pattern, 0), value))
  {
    var matcher := new Matcher(pattern, value);
    answer := matcher.Match(0, 0);
    assert value[0..] == value;
    GridSize(pattern, value);
    SubsetSize(matcher.started, Grid(pattern, value));
  }

  ghost function Row(o: nat, n: nat): set<Key> {
    set i | 0 <= i < n :: (o, i)
  }

  lemma {:induction false} RowSize(o: nat, n: nat)
    ensures |Row(o, n)| == n
  {
    if n > 0 {
      RowSize(o, n - 1);
      assert Row(o, n) == Row(o, n - 1) + {(o, n - 1)};
    }
  }

  ghost function Rows(m: nat, n: nat): set<Key> {
    set o, i | 0 <= o < m && 0 <= i < n :: (o, i)
  }

  lemma RowsNext(m: nat, n: nat)
    ensures Rows(m + 1, n) == Rows(m, n) + Row(m, n) && Rows(m, n) !! Row(m, n)
  {
  }

  lemma DisjointSize(a: set<Key>, b: set<Key>)
    requires a !! b
    ensures |a + b| == |a| + |b|
  {
  }

  lemma {:induction false} RowsSize(m: nat, n: nat)
    ensures |Rows(m, n)| == m * n
  {
    if m == 0 {
      assert Rows(m, n) == {};
    } else {
      RowsSize(m - 1, n);
      RowSize(m - 1, n);
      RowsNext(m - 1, n);
      DisjointSize(Rows(m - 1, n), Row(m - 1, n));
      Distribute(m, n);
    }
  }

  lemma Distribute(m: nat, n: nat)
    requires m > 0
    ensures (m - 1) * n + n == m * n
  {
  }

  lemma GridSize(p: string, v: string)
    ensures |Grid(p, v)| == (|p| + 1) * (|v| + 1)
  {
    assert Grid(p, v) == Rows(|p| + 1, |v| + 1);
    RowsSize(|p| + 1, |v| + 1);
  }
}
