/** The managed routing block in AGENTS.md and its skill file (routing_assets.py). */
module RoutingAssets {
  import opened Basics

  /** Bytes, written as characters. */
  type Bytes = string

  /** The two markers and the text between them, line breaks included. */
  datatype Wording = Wording(begin: Bytes, end: Bytes, text: Bytes) {
    function Rule(): Bytes {
      "\n" + (begin + (text + (end + "\n")))
    }

    /** Markers and text hold no '<' but the first character of each marker, and
        no carriage return; neither marker begins the other. */
    predicate WellFormed() {
      IsMarker(begin) && IsMarker(end) && !(begin <= end) && !(end <= begin) && '<' !in text && '\r' !in text
    }
  }

  // ---------- Searching ----------

  predicate Occurs(s: Bytes, m: Bytes, i: nat) {
    i + |m| <= |s| && s[i..i + |m|] == m
  }

  /** s.index(m) from `from` on, or None. */
  function Find(s: Bytes, m: Bytes, from: nat): (r: Option<nat>)
    requires from <= |s|
    ensures r.Some? ==> from <= r.value && Occurs(s, m, r.value)
    ensures forall j | from <= j && Occurs(s, m, j) :: r.Some? && r.value <= j
    decreases |s| - from
  {
    if Occurs(s, m, from) then Some(from) else if from == |s| then None else Find(s, m, from + 1)
  }

  /** s.count(m): occurrences that do not overlap, counted from `from` on. */
  function Count(s: Bytes, m: Bytes, from: nat): nat
    requires from <= |s| && m != []
    decreases |s| - from
  {
    var first := Find(s, m, from);
    if first.None? then 0 else 1 + Count(s, m, first.value + |m|)
  }

  /** A marker: its only '<' is its first character. */
  predicate IsMarker(m: Bytes) {
    m != [] && m[0] == '<' && '<' !in m[1..] && '\n' !in m && '\r' !in m
  }

  /** The marker occurs in this one place. */
  ghost predicate JustAt(s: Bytes, m: Bytes, i: nat) {
    forall j: nat :: Occurs(s, m, j) <==> j == i
  }

  lemma MarkersApart(s: Bytes, m: Bytes, n: Bytes, i: nat, j: nat)
    requires IsMarker(m) && IsMarker(n) && Occurs(s, m, i) && Occurs(s, n, j) && i < j
    ensures i + |m| <= j
  {
    FirstOf(s, n, j);
    if j < i + |m| {
      MarkerChar(s, m, i, j);
    }
  }

  lemma MarkerChar(s: Bytes, m: Bytes, i: nat, k: nat)
    requires IsMarker(m) && Occurs(s, m, i) && i < k < i + |m|
    ensures s[k] != '<'
  {
    assert s[k] == s[i..i + |m|][k - i];
    NotIn(m[1..], '<', k - i - 1);
  }

  /** Exactly one marker is counted exactly when it occurs in exactly one place. */
  lemma CountOne(s: Bytes, m: Bytes)
    requires IsMarker(m)
    ensures Count(s, m, 0) == 1 <==> exists i: nat :: JustAt(s, m, i)
    ensures Count(s, m, 0) == 0 <==> forall i: nat :: !Occurs(s, m, i)
    ensures Count(s, m, 0) == 1 ==> Find(s, m, 0).Some? && JustAt(s, m, Find(s, m, 0).value)
  {
    var first := Find(s, m, 0);
    forall i: nat | JustAt(s, m, i)
      ensures Occurs(s, m, i)
    {
    }
    if first.Some? {
      var i := first.value;
      var second := Find(s, m, i + |m|);
      forall j: nat | Occurs(s, m, j)
        ensures j == i || i + |m| <= j
      {
        if i < j {
          MarkersApart(s, m, m, i, j);
        }
      }
      if second.None? {
        assert Count(s, m, i + |m|) == 0;
        assert JustAt(s, m, i);
      } else {
        assert Occurs(s, m, second.value);
        assert second.value != i;
      }
    }
  }

  // ---------- Line ends ----------

  /** payload.replace(b"\r\n", ending) */
  function ReplaceCrlf(s: Bytes, ending: Bytes): Bytes {
    if s == [] then []
    else if |s| > 1 && s[0] == '\r' && s[1] == '\n' then ending + ReplaceCrlf(s[2..], ending)
    else [s[0]] + ReplaceCrlf(s[1..], ending)
  }

  /** A checkout that ends lines with carriage return and line feed. */
  function Crlf(s: Bytes): Bytes {
    if s == [] then [] else CrlfChar(s[0]) + Crlf(s[1..])
  }

  function CrlfChar(c: char): Bytes {
    if c == '\n' then "\r\n" else [c]
  }

  lemma CrlfFirst(c: char, s: Bytes)
    ensures Crlf([c] + s) == CrlfChar(c) + Crlf(s)
  {
    assert ([c] + s)[1..] == s;
  }

  lemma {:induction false} CrlfConcat(a: Bytes, b: Bytes)
    ensures Crlf(a + b) == Crlf(a) + Crlf(b)
  {
    if a == [] {
      assert a + b == b;
    } else {
      calc {
        Crlf(a + b);
        { assert a + b == [a[0]] + (a[1..] + b); CrlfFirst(a[0], a[1..] + b); }
        CrlfChar(a[0]) + Crlf(a[1..] + b);
        { CrlfConcat(a[1..], b); }
        CrlfChar(a[0]) + (Crlf(a[1..]) + Crlf(b));
        Crlf(a) + Crlf(b);
      }
    }
  }

  lemma {:induction false} CrlfWithout(s: Bytes, c: char)
    requires c !in s && c != '\r' && c != '\n'
    ensures c !in Crlf(s)
  {
    if s != [] {
      CrlfWithout(s[1..], c);
    }
  }

  lemma {:induction false} CrlfOfOneLine(s: Bytes)
    requires '\n' !in s
    ensures Crlf(s) == s
  {
    if s != [] {
      CrlfOfOneLine(s[1..]);
      assert s == [s[0]] + s[1..];
    }
  }

  /** Undoing a checkout: the text comes back, and no carriage return stands alone. */
  lemma {:induction false} ReplaceUndoes(s: Bytes)
    requires '\r' !in s
    ensures ReplaceCrlf(Crlf(s), "\n") == s && '\r' !in ReplaceCrlf(Crlf(s), [])
    ensures '\n' in s ==> '\r' in Crlf(s)
  {
    if s != [] {
      ReplaceUndoes(s[1..]);
      assert s == [s[0]] + s[1..];
      if s[0] == '\n' {
        assert Crlf(s)[2..] == Crlf(s[1..]);
        assert Crlf(s)[0] == '\r';
      } else {
        assert Crlf(s)[1..] == Crlf(s[1..]);
        assert forall c :: c in Crlf(s[1..]) ==> c in Crlf(s);
      }
    }
  }

  lemma {:induction false} ReplaceNothing(s: Bytes, ending: Bytes)
    requires '\r' !in s
    ensures ReplaceCrlf(s, ending) == s
  {
    if s != [] {
      ReplaceNothing(s[1..], ending);
      assert s == [s[0]] + s[1..];
    }
  }

  // ---------- Plans ----------

  /** _known_payload; hashes are injective, so the known hashes are the known payloads. */
  predicate KnownPayload(payload: Bytes, known: set<Bytes>) {
    || payload in known
    || ('\r' in payload && '\r' !in ReplaceCrlf(payload, []) && ReplaceCrlf(payload, "\n") in known)
  }

  /** The text without its carriage returns. */
  function Stripped(s: Bytes): Bytes {
    if s == [] then [] else (if s[0] == '\r' then [] else [s[0]]) + Stripped(s[1..])
  }

  /** Every carriage return is half of a line end. */
  ghost predicate Paired(s: Bytes) {
    forall i | 0 <= i < |s| && s[i] == '\r' :: i + 1 < |s| && s[i + 1] == '\n'
  }

  lemma {:induction false} StrippedConcat(a: Bytes, b: Bytes)
    ensures Stripped(a + b) == Stripped(a) + Stripped(b)
  {
    if a == [] {
      assert a + b == b;
    } else {
      assert (a + b)[1..] == a[1..] + b;
      StrippedConcat(a[1..], b);
    }
  }

  lemma {:induction false} StrippedNothing(s: Bytes)
    requires '\r' !in s
    ensures Stripped(s) == s
  {
    if s != [] {
      StrippedNothing(s[1..]);
    }
  }

  /** Python's replace takes out exactly the paired carriage returns. */
  lemma {:induction false} ReplacePaired(s: Bytes)
    ensures '\r' !in ReplaceCrlf(s, []) <==> Paired(s)
    ensures Paired(s) ==> ReplaceCrlf(s, "\n") == Stripped(s)
  {
    if |s| >= 2 && s[0] == '\r' && s[1] == '\n' {
      ReplacePaired(s[2..]);
      assert s[1..][1..] == s[2..] && Stripped(s) == Stripped(s[1..]) == "\n" + Stripped(s[2..]);
      PairedShift(s, 2);
    } else if s != [] && s[0] != '\r' {
      ReplacePaired(s[1..]);
      PairedShift(s, 1);
      assert forall c :: c in ReplaceCrlf(s, []) <==> c == s[0] || c in ReplaceCrlf(s[1..], []);
    } else if s != [] {
      assert ReplaceCrlf(s, [])[0] == '\r' && !Paired(s);
    }
  }

  lemma PairedShift(s: Bytes, k: nat)
    requires k <= |s| && forall i | 0 <= i < k && s[i] == '\r' :: i + 1 < k && s[i + 1] == '\n'
    ensures Paired(s) <==> Paired(s[k..])
  {
    if Paired(s[k..]) {
      forall i | 0 <= i < |s| && s[i] == '\r'
        ensures i + 1 < |s| && s[i + 1] == '\n'
      {
        if i >= k {
          assert s[k..][i - k] == '\r';
        }
      }
    }
    if Paired(s) {
      forall i | 0 <= i < |s[k..]| && s[k..][i] == '\r'
        ensures i + 1 < |s[k..]| && s[k..][i + 1] == '\n'
      {
        assert s[k + i] == '\r';
      }
    }
  }

  /** Known is what some release published, byte for byte or as a checkout whose
      carriage returns are all halves of line ends. */
  lemma KnownExactly(payload: Bytes, known: set<Bytes>)
    ensures KnownPayload(payload, known) <==>
      payload in known || ('\r' in payload && Paired(payload) && Stripped(payload) in known)
  {
    ReplacePaired(payload);
  }

  datatype Block = NoMarkers | Malformed | Block(start: nat, finish: nat)

  /** A line end before the block belongs to it. Python's slices with a negative
      start are empty here, because the body is longer than two bytes. */
  function LeadStart(body: Bytes, start: nat): (r: nat)
    requires start <= |body|
    ensures r <= start
  {
    if start >= 2 && body[start - 2..start] == "\r\n" then start - 2
    else if start >= 1 && body[start - 1] == '\n' then start - 1
    else start
  }

  function TailFinish(body: Bytes, finish: nat): (r: nat)
    requires finish <= |body|
    ensures finish <= r <= |body|
  {
    if finish + 2 <= |body| && body[finish..finish + 2] == "\r\n" then finish + 2
    else if finish < |body| && body[finish] == '\n' then finish + 1
    else finish
  }

  function FindBlock(w: Wording, body: Bytes): (r: Block)
    requires w.begin != [] && w.end != []
    ensures r.Block? ==> r.start <= |body| && r.finish <= |body|
  {
    Decide(body, Find(body, w.begin, 0), Count(body, w.begin, 0), Find(body, w.end, 0), Count(body, w.end, 0), |w.end|)
  }

  /** What the first positions and the counts of the two markers mean. */
  function Decide(body: Bytes, begin: Option<nat>, begins: nat, end: Option<nat>, ends: nat, length: nat): (r: Block)
    requires (begin.Some? ==> begin.value <= |body|) && (end.Some? ==> end.value + length <= |body|)
    ensures r.Block? ==> r.start <= |body| && r.finish <= |body|
  {
    if begin.None? && end.None? then NoMarkers
    else if begin.None? || end.None? || begins != 1 || ends != 1 then Malformed
    else Block(LeadStart(body, begin.value), TailFinish(body, end.value + length))
  }

  /** body[start:finish] */
  function Slice(body: Bytes, start: nat, finish: nat): Bytes
    requires start <= |body| && finish <= |body|
  {
    if start <= finish then body[start..finish] else []
  }

  datatype Status = Absent | Conflict | Matching | OwnedOld

  datatype Plan = Plan(status: Status, before: Option<Bytes>, after: Option<Bytes>)

  /** plan_routing for AGENTS.md. */
  function PlanRule(w: Wording, known: set<Bytes>, before: Option<Bytes>, remove: bool, removeCreated: bool): Plan
    requires w.WellFormed()
  {
    var body := if before.Some? then before.value else [];
    match FindBlock(w, body)
    case NoMarkers => Plan(Absent, before, if remove then before else Some(body + w.Rule()))
    case Malformed => Plan(Conflict, before, before)
    case Block(start, finish) =>
      var block := Slice(body, start, finish);
      var owned := KnownPayload(block, known);
      var after := body[..start] + (if remove then [] else w.Rule()) + body[finish..];
      Plan(if block == w.Rule() then Matching else if owned then OwnedOld else Conflict,
           before,
           if !owned then before else if remove && removeCreated && after == [] then None else Some(after))
  }

  /** owned_rule_remainder */
  function OwnedRuleRemainder(w: Wording, known: set<Bytes>, body: Bytes): Option<Bytes>
    requires w.WellFormed()
  {
    var found := FindBlock(w, body);
    if found.Block? && KnownPayload(Slice(body, found.start, found.finish), known)
    then Some(body[..found.start] + body[found.finish..]) else None
  }

  function Install(w: Wording, known: set<Bytes>, body: Bytes): Plan
    requires w.WellFormed()
  {
    PlanRule(w, known, Some(body), false, false)
  }

  function Remove(w: Wording, known: set<Bytes>, body: Bytes): Plan
    requires w.WellFormed()
  {
    PlanRule(w, known, Some(body), true, false)
  }

  // ---------- Where the block is ----------

  /** Neither marker occurs. */
  ghost predicate Unmarked(w: Wording, s: Bytes) {
    forall i: nat :: !Occurs(s, w.begin, i) && !Occurs(s, w.end, i)
  }

  /** Where a marker in a concatenation lies. */
  lemma OccursApart(a: Bytes, b: Bytes, m: Bytes, i: nat)
    requires m != [] && Occurs(a + b, m, i)
    ensures || Occurs(a, m, i)
            || (i >= |a| && Occurs(b, m, i - |a|))
            || (a != [] && b != [] && a[|a| - 1] in m && b[0] in m)
  {
    if i + |m| <= |a| {
      assert (a + b)[i..i + |m|] == a[i..i + |m|];
    } else if i >= |a| {
      assert (a + b)[i..i + |m|] == b[i - |a|..i - |a| + |m|];
    } else {
      assert a[|a| - 1] == (a + b)[i..i + |m|][|a| - 1 - i] && b[0] == (a + b)[i..i + |m|][|a| - i];
    }
  }

  lemma SamePlace(s: Bytes, m: Bytes, n: Bytes, i: nat)
    requires Occurs(s, m, i) && Occurs(s, n, i)
    ensures m <= n || n <= m
  {
    if |m| <= |n| {
      assert s[i..i + |n|][..|m|] == s[i..i + |m|];
    } else {
      assert s[i..i + |m|][..|n|] == s[i..i + |n|];
    }
  }

  predicate IsLineEnd(s: Bytes) {
    s == "\n" || s == "\r\n"
  }

  /** A block as an installation or a checkout leaves it. */
  function BlockOf(w: Wording, lead: Bytes, text: Bytes, tail: Bytes): Bytes {
    lead + (w.begin + (text + (w.end + tail)))
  }

  lemma OccursAt(a: Bytes, m: Bytes, z: Bytes)
    ensures Occurs(a + (m + z), m, |a|)
  {
    assert (a + (m + z))[|a|..|a| + |m|] == m;
  }

  /** Inside a block each marker occurs once. */
  lemma AnglesOfBlock(w: Wording, lead: Bytes, text: Bytes, tail: Bytes)
    requires w.WellFormed() && IsLineEnd(lead) && IsLineEnd(tail) && '<' !in text
    ensures var b := BlockOf(w, lead, text, tail);
      forall j: nat | j < |b| :: b[j] == '<' <==> j == |lead| || j == |lead| + |w.begin| + |text|
  {
    var b := BlockOf(w, lead, text, tail);
    forall j: nat | j < |b|
      ensures b[j] == '<' <==> j == |lead| || j == |lead| + |w.begin| + |text|
    {
      AnglesInBlock(w, lead, text, tail, j);
    }
  }

  lemma MarkersInBlock(w: Wording, lead: Bytes, text: Bytes, tail: Bytes)
    requires w.WellFormed() && IsLineEnd(lead) && IsLineEnd(tail) && '<' !in text
    ensures JustAt(BlockOf(w, lead, text, tail), w.begin, |lead|)
    ensures JustAt(BlockOf(w, lead, text, tail), w.end, |lead| + |w.begin| + |text|)
  {
    var b := BlockOf(w, lead, text, tail);
    var first, second := |lead|, |lead| + |w.begin| + |text|;
    OccursInBlock(w, lead, text, tail);
    AnglesOfBlock(w, lead, text, tail);
    JustAtOne(b, w.begin, w.end, first, second);
    JustAtOne(b, w.end, w.begin, second, first);
  }

  lemma OccursInBlock(w: Wording, lead: Bytes, text: Bytes, tail: Bytes)
    ensures Occurs(BlockOf(w, lead, text, tail), w.begin, |lead|)
    ensures Occurs(BlockOf(w, lead, text, tail), w.end, |lead| + |w.begin| + |text|)
  {
    OccursAt(lead, w.begin, text + (w.end + tail));
    assert BlockOf(w, lead, text, tail) == (lead + w.begin + text) + (w.end + tail);
    OccursAt(lead + w.begin + text, w.end, tail);
  }

  lemma JustAtOne(b: Bytes, m: Bytes, n: Bytes, i: nat, k: nat)
    requires IsMarker(m) && Occurs(b, m, i) && Occurs(b, n, k) && !(m <= n) && !(n <= m)
    requires forall j: nat | j < |b| && b[j] == '<' :: j == i || j == k
    ensures JustAt(b, m, i)
  {
    forall j: nat
      ensures Occurs(b, m, j) ==> j == i
    {
      if Occurs(b, m, j) {
        FirstOf(b, m, j);
        NotBoth(b, m, n, k);
      }
    }
  }

  lemma FirstOf(s: Bytes, m: Bytes, i: nat)
    requires m != [] && Occurs(s, m, i)
    ensures s[i] == m[0]
  {
    assert s[i..i + |m|][0] == s[i];
  }

  lemma NotBoth(s: Bytes, m: Bytes, n: Bytes, i: nat)
    requires !(m <= n) && !(n <= m)
    ensures !(Occurs(s, m, i) && Occurs(s, n, i))
  {
    if Occurs(s, m, i) && Occurs(s, n, i) {
      SamePlace(s, m, n, i);
    }
  }

  lemma NotIn(s: Bytes, c: char, i: nat)
    requires c !in s && i < |s|
    ensures s[i] != c
  {
  }

  lemma AnglesInBlock(w: Wording, lead: Bytes, text: Bytes, tail: Bytes, i: nat)
    requires w.WellFormed() && IsLineEnd(lead) && IsLineEnd(tail) && '<' !in text
    requires i < |BlockOf(w, lead, text, tail)|
    ensures BlockOf(w, lead, text, tail)[i] == '<' <==> i == |lead| || i == |lead| + |w.begin| + |text|
  {
    var second := |lead| + |w.begin| + |text|;
    if |lead| < i < |lead| + |w.begin| {
      NotIn(w.begin[1..], '<', i - |lead| - 1);
    } else if |lead| + |w.begin| <= i < second {
      NotIn(text, '<', i - |lead| - |w.begin|);
    } else if second < i < second + |w.end| {
      NotIn(w.end[1..], '<', i - second - 1);
    }
  }

  /** With unmarked text around it, a marker is where it is in the block. */
  lemma MarkerAround(w: Wording, pre: Bytes, b: Bytes, post: Bytes, m: Bytes, i: nat)
    requires IsMarker(m) && (m == w.begin || m == w.end) && Unmarked(w, pre) && Unmarked(w, post)
    requires b != [] && b[0] in "\r\n" && b[|b| - 1] in "\r\n" && JustAt(b, m, i)
    ensures JustAt(pre + (b + post), m, |pre| + i)
  {
    OccursInside(pre, b, post, m, i);
    forall j: nat | Occurs(pre + (b + post), m, j)
      ensures j == |pre| + i
    {
      OccursWithin(w, pre, b, post, m, j);
    }
  }

  lemma OccursInside(pre: Bytes, b: Bytes, post: Bytes, m: Bytes, i: nat)
    requires Occurs(b, m, i)
    ensures Occurs(pre + (b + post), m, |pre| + i)
  {
    assert (pre + (b + post))[|pre| + i..|pre| + i + |m|] == b[i..i + |m|];
  }

  lemma OccursWithin(w: Wording, pre: Bytes, b: Bytes, post: Bytes, m: Bytes, i: nat)
    requires IsMarker(m) && (m == w.begin || m == w.end) && Unmarked(w, pre) && Unmarked(w, post)
    requires b != [] && b[0] in "\r\n" && b[|b| - 1] in "\r\n"
    requires Occurs(pre + (b + post), m, i)
    ensures i >= |pre| && Occurs(b, m, i - |pre|)
  {
    assert forall k: nat :: !Occurs(pre, m, k) && !Occurs(post, m, k);
    OccursApart(pre, b + post, m, i);
    OccursApart(b, post, m, i - |pre|);
  }

  predicate EndsInReturn(s: Bytes) {
    s != [] && s[|s| - 1] == '\r'
  }

  /** What stands before an installed block once the block is taken out: a lone
      carriage return at its end is taken for part of the block's line end. */
  function DropReturn(s: Bytes): (r: Bytes)
    ensures r == s <==> !EndsInReturn(s)
  {
    if EndsInReturn(s) then s[..|s| - 1] else s
  }

  /** The block found in a body that holds one. */
  lemma FindAround(w: Wording, pre: Bytes, lead: Bytes, text: Bytes, tail: Bytes, post: Bytes)
    requires w.WellFormed() && IsLineEnd(lead) && IsLineEnd(tail) && '<' !in text
    requires Unmarked(w, pre) && Unmarked(w, post)
    ensures FindBlock(w, pre + (BlockOf(w, lead, text, tail) + post)) ==
            Block(if lead == "\n" then |DropReturn(pre)| else |pre|, |pre| + |BlockOf(w, lead, text, tail)|)
  {
    var b := BlockOf(w, lead, text, tail);
    MarkersInBlock(w, lead, text, tail);
    BlockEnds(w, lead, text, tail);
    FindBlockAround(w, pre, b, post, lead, tail, |lead| + |w.begin| + |text|, pre + (b + post));
  }

  lemma FindBlockAround(w: Wording, pre: Bytes, b: Bytes, post: Bytes, lead: Bytes, tail: Bytes, second: nat, body: Bytes)
    requires w.WellFormed() && IsLineEnd(lead) && IsLineEnd(tail) && Unmarked(w, pre) && Unmarked(w, post)
    requires JustAt(b, w.begin, |lead|) && JustAt(b, w.end, second)
    requires Occurs(b, lead, 0) && Occurs(b, tail, second + |w.end|) && |b| == second + |w.end| + |tail|
    requires body == pre + (b + post)
    ensures FindBlock(w, body) == Block(if lead == "\n" then |DropReturn(pre)| else |pre|, |pre| + |b|)
  {
    MarkersMoved(w, pre, b, post, lead, tail, second);
    EndsMoved(pre, b, post, lead, tail, second + |w.end|);
    FindBlockIn(w, body, pre, lead, tail, |pre| + second, |pre| + (second + |w.end|));
  }

  /** The block by where its parts occur. */
  lemma FindBlockIn(w: Wording, body: Bytes, pre: Bytes, lead: Bytes, tail: Bytes, second: nat, finish: nat)
    requires w.WellFormed() && IsLineEnd(lead) && IsLineEnd(tail) && finish == second + |w.end|
    requires JustAt(body, w.begin, |pre| + |lead|) && JustAt(body, w.end, second)
    requires Occurs(body, pre, 0) && Occurs(body, lead, |pre|) && Occurs(body, tail, finish)
    ensures FindBlock(w, body) == Block(if lead == "\n" then |DropReturn(pre)| else |pre|, finish + |tail|)
  {
    LeadAround(pre, lead, body, |pre| + |lead|);
    TailAround(body, finish, tail);
    FoundAt(w, body, |pre| + |lead|, second, if lead == "\n" then |DropReturn(pre)| else |pre|, finish + |tail|);
  }

  lemma FoundAt(w: Wording, body: Bytes, first: nat, second: nat, start: nat, finish: nat)
    requires IsMarker(w.begin) && IsMarker(w.end) && JustAt(body, w.begin, first) && JustAt(body, w.end, second)
    requires first <= |body| && second + |w.end| <= |body|
    requires LeadStart(body, first) == start && TailFinish(body, second + |w.end|) == finish
    ensures FindBlock(w, body) == Block(start, finish)
  {
    Found(body, w.begin, first);
    Found(body, w.end, second);
    FoundBy(w, body, first, second);
  }

  lemma FoundBy(w: Wording, body: Bytes, first: nat, second: nat)
    requires w.begin != [] && w.end != [] && Find(body, w.begin, 0) == Some(first) && Find(body, w.end, 0) == Some(second)
    requires Count(body, w.begin, 0) == 1 && Count(body, w.end, 0) == 1
    requires first <= |body| && second + |w.end| <= |body|
    ensures FindBlock(w, body) == Decide(body, Some(first), 1, Some(second), 1, |w.end|)
  {
  }

  lemma Found(body: Bytes, m: Bytes, i: nat)
    requires IsMarker(m) && JustAt(body, m, i)
    ensures Find(body, m, 0) == Some(i) && Count(body, m, 0) == 1
  {
    CountOne(body, m);
    assert JustAt(body, m, i);
  }

  lemma EndsMoved(pre: Bytes, b: Bytes, post: Bytes, lead: Bytes, tail: Bytes, finish: nat)
    requires Occurs(b, lead, 0) && Occurs(b, tail, finish)
    ensures Occurs(pre + (b + post), pre, 0) && Occurs(pre + (b + post), lead, |pre|)
    ensures Occurs(pre + (b + post), tail, |pre| + finish)
  {
    OccursInside(pre, b, post, lead, 0);
    OccursInside(pre, b, post, tail, finish);
  }

  lemma MarkersMoved(w: Wording, pre: Bytes, b: Bytes, post: Bytes, lead: Bytes, tail: Bytes, second: nat)
    requires w.WellFormed() && IsLineEnd(lead) && IsLineEnd(tail) && Unmarked(w, pre) && Unmarked(w, post)
    requires JustAt(b, w.begin, |lead|) && JustAt(b, w.end, second)
    requires Occurs(b, lead, 0) && Occurs(b, tail, second + |w.end|) && |b| == second + |w.end| + |tail|
    ensures JustAt(pre + (b + post), w.begin, |pre| + |lead|) && JustAt(pre + (b + post), w.end, |pre| + second)
  {
    assert b[|b| - 1] == b[second + |w.end|..|b|][|tail| - 1] == tail[|tail| - 1];
    assert b[0] == b[0..|lead|][0] == lead[0];
    MarkerAround(w, pre, b, post, w.begin, |lead|);
    MarkerAround(w, pre, b, post, w.end, second);
  }

  lemma BlockEnds(w: Wording, lead: Bytes, text: Bytes, tail: Bytes)
    ensures Occurs(BlockOf(w, lead, text, tail), lead, 0)
    ensures Occurs(BlockOf(w, lead, text, tail), tail, |lead| + |w.begin| + |text| + |w.end|)
  {
  }

  lemma LeadAround(pre: Bytes, lead: Bytes, body: Bytes, start: nat)
    requires IsLineEnd(lead) && start == |pre| + |lead| && Occurs(body, pre, 0) && Occurs(body, lead, |pre|)
    ensures LeadStart(body, start) == if lead == "\n" then |DropReturn(pre)| else |pre|
  {
    assert body[start - 1] == body[|pre|..start][|lead| - 1] == '\n';
    if start >= 2 {
      assert body[start - 2..start] == [body[start - 2], body[start - 1]];
      if lead == "\n" {
        assert body[start - 2] == body[0..|pre|][start - 2] == pre[start - 2];
      }
    }
  }

  lemma TailAround(body: Bytes, finish: nat, tail: Bytes)
    requires IsLineEnd(tail) && Occurs(body, tail, finish)
    ensures TailFinish(body, finish) == finish + |tail|
  {
    assert body[finish] == body[finish..finish + |tail|][0] == tail[0];
    if finish + 2 <= |body| {
      assert body[finish..finish + 2][0] == body[finish];
    }
  }

  // ---------- Installing and removing ----------

  /** The rule is one of the known ones, and each of these holds markers. */
  ghost predicate Published(w: Wording, known: set<Bytes>) {
    w.WellFormed() && w.Rule() in known && forall p | p in known :: '<' in p
  }

  /** A carriage return in front of the rule makes it one of a portable checkout. */
  lemma ReturnedRule(w: Wording, known: set<Bytes>)
    requires Published(w, known)
    ensures KnownPayload("\r" + w.Rule(), known)
  {
    var rest := w.begin + (w.text + (w.end + "\n"));
    assert '\r' !in rest;
    ReplaceNothing(rest, []);
    ReplaceNothing(rest, "\n");
    assert ("\r" + w.Rule())[2..] == rest;
  }

  /** What the plans make of an installed rule with unmarked text around it. */
  lemma InstalledRule(w: Wording, known: set<Bytes>, pre: Bytes, post: Bytes)
    requires Published(w, known) && Unmarked(w, pre) && Unmarked(w, post)
    ensures var body := pre + (w.Rule() + post);
      && Install(w, known, body).after == Some(DropReturn(pre) + w.Rule() + post)
      && Remove(w, known, body).after == Some(DropReturn(pre) + post)
      && OwnedRuleRemainder(w, known, body) == Some(DropReturn(pre) + post)
  {
    RuleFound(w, pre, post);
    ReturnedRule(w, known);
    InstalledPlans(w, known, pre, w.Rule(), post);
  }

  lemma InstalledPlans(w: Wording, known: set<Bytes>, pre: Bytes, rule: Bytes, post: Bytes)
    requires w.WellFormed() && FindBlock(w, pre + (rule + post)) == Block(|DropReturn(pre)|, |pre| + |rule|)
    requires KnownPayload(rule, known) && KnownPayload("\r" + rule, known)
    ensures var body := pre + (rule + post);
      && Install(w, known, body).after == Some(DropReturn(pre) + w.Rule() + post)
      && Remove(w, known, body).after == Some(DropReturn(pre) + post)
      && OwnedRuleRemainder(w, known, body) == Some(DropReturn(pre) + post)
  {
    RuleSlice(pre, rule, post);
    PlansOf(w, known, pre + (rule + post), DropReturn(pre), ReturnIf(EndsInReturn(pre), rule), post);
  }

  /** The rule, with a carriage return in front or not. */
  function ReturnIf(returned: bool, rule: Bytes): Bytes {
    if returned then "\r" + rule else rule
  }

  lemma RuleFound(w: Wording, pre: Bytes, post: Bytes)
    requires w.WellFormed() && Unmarked(w, pre) && Unmarked(w, post)
    ensures FindBlock(w, pre + (w.Rule() + post)) == Block(|DropReturn(pre)|, |pre| + |w.Rule()|)
  {
    assert BlockOf(w, "\n", w.text, "\n") == w.Rule();
    FindAround(w, pre, "\n", w.text, "\n", post);
  }

  /** What the plans make of a body whose owned block is known. */
  lemma PlansOf(w: Wording, known: set<Bytes>, body: Bytes, pre: Bytes, block: Bytes, post: Bytes)
    requires w.WellFormed() && KnownPayload(block, known) && FindBlock(w, body).Block?
    requires var found := FindBlock(w, body);
      && found.start <= found.finish && body[found.start..found.finish] == block
      && body[..found.start] == pre && body[found.finish..] == post
    ensures Install(w, known, body).after == Some(pre + w.Rule() + post)
    ensures Remove(w, known, body).after == Some(pre + post)
    ensures OwnedRuleRemainder(w, known, body) == Some(pre + post)
  {
    assert pre + [] + post == pre + post;
  }

  lemma RuleSlice(pre: Bytes, rule: Bytes, post: Bytes)
    ensures var body := pre + (rule + post);
      && body[|DropReturn(pre)|..|pre| + |rule|] == ReturnIf(EndsInReturn(pre), rule)
      && body[..|DropReturn(pre)|] == DropReturn(pre) && body[|pre| + |rule|..] == post
  {
  }

  lemma DropLonger(pre: Bytes, rest: Bytes)
    ensures DropReturn(pre) + rest == pre + rest <==> !EndsInReturn(pre)
  {
    assert |DropReturn(pre) + rest| == |pre + rest| <==> !EndsInReturn(pre);
  }

  lemma EmptyUnmarked(w: Wording)
    requires w.WellFormed()
    ensures Unmarked(w, [])
  {
  }

  /** Without markers an installation appends the rule, and a removal does nothing. */
  lemma InstallAppends(w: Wording, known: set<Bytes>, body: Bytes)
    requires w.WellFormed() && Unmarked(w, body)
    ensures FindBlock(w, body).NoMarkers?
    ensures Install(w, known, body).after == Some(body + w.Rule()) && Remove(w, known, body).after == Some(body)
  {
    assert Find(body, w.begin, 0).None? && Find(body, w.end, 0).None?;
  }

  /** For a body without markers: what an installation appends a removal takes
      away again, and a second installation changes nothing, exactly when the
      body does not end in a carriage return. */
  lemma InstallThenRemove(w: Wording, known: set<Bytes>, body: Bytes)
    requires Published(w, known) && Unmarked(w, body)
    ensures Install(w, known, body).after == Some(body + w.Rule()) && Install(w, known, body).status == Absent
    ensures Install(w, known, body + w.Rule()).status == if EndsInReturn(body) then OwnedOld else Matching
    ensures Remove(w, known, body + w.Rule()).after == Some(body) <==> !EndsInReturn(body)
    ensures Install(w, known, body + w.Rule()).after == Some(body + w.Rule()) <==> !EndsInReturn(body)
    ensures OwnedRuleRemainder(w, known, body + w.Rule()) == Some(DropReturn(body))
  {
    var rule := w.Rule();
    InstallAppends(w, known, body);
    EmptyUnmarked(w);
    InstalledRule(w, known, body, []);
    InstalledStatus(w, known, body);
    EmptyBack(body, rule);
    EmptyBack(DropReturn(body), rule);
    assert DropReturn(body) + rule + [] == DropReturn(body) + rule;
    DropLonger(body, rule);
  }

  lemma InstalledStatus(w: Wording, known: set<Bytes>, body: Bytes)
    requires Published(w, known) && Unmarked(w, body)
    ensures Install(w, known, body + w.Rule()).status == if EndsInReturn(body) then OwnedOld else Matching
  {
    EmptyUnmarked(w);
    RuleFound(w, body, []);
    ReturnedRule(w, known);
    StatusOf(w, known, body, w.Rule());
  }

  lemma StatusOf(w: Wording, known: set<Bytes>, body: Bytes, rule: Bytes)
    requires w.WellFormed() && rule == w.Rule()
    requires FindBlock(w, body + (rule + [])) == Block(|DropReturn(body)|, |body| + |rule|)
    requires KnownPayload(rule, known) && KnownPayload("\r" + rule, known)
    ensures Install(w, known, body + rule).status == if EndsInReturn(body) then OwnedOld else Matching
  {
    EmptyBack(body, rule);
    EditedSlice(body, "\n", rule, []);
    StatusBy(w, known, body + (rule + []), ReturnIf(EndsInReturn(body), rule));
    assert |"\r" + rule| == 1 + |rule|;
  }

  lemma StatusBy(w: Wording, known: set<Bytes>, body: Bytes, block: Bytes)
    requires w.WellFormed() && FindBlock(w, body).Block?
    requires Slice(body, FindBlock(w, body).start, FindBlock(w, body).finish) == block
    ensures KnownPayload(block, known) ==> Install(w, known, body).status == if block == w.Rule() then Matching else OwnedOld
  {
  }

  lemma EmptyBack(pre: Bytes, rule: Bytes)
    ensures pre + (rule + []) == pre + rule && pre + [] == pre
  {
  }

  /** A rule file that the installation created goes away with the recorded ownership. */
  lemma CreatedThenRemoved(w: Wording, known: set<Bytes>)
    requires Published(w, known)
    ensures PlanRule(w, known, None, false, false).after == Some(w.Rule())
    ensures PlanRule(w, known, Some(w.Rule()), true, true).after == None
    ensures PlanRule(w, known, Some(w.Rule()), true, false).after == Some([])
  {
    assert Unmarked(w, []);
    InstallThenRemove(w, known, []);
    assert [] + w.Rule() == w.Rule();
    var found := FindBlock(w, w.Rule());
    assert Remove(w, known, w.Rule()).after == Some([]);
  }

  // ---------- Edited blocks ----------

  lemma StrippedLines(w: Wording, lead: Bytes, text: Bytes, tail: Bytes)
    requires w.WellFormed() && IsLineEnd(lead) && IsLineEnd(tail)
    ensures Stripped(BlockOf(w, lead, text, tail)) == BlockOf(w, "\n", Stripped(text), "\n")
    ensures Stripped("\r" + BlockOf(w, lead, text, tail)) == BlockOf(w, "\n", Stripped(text), "\n")
  {
    StrippedConcat(lead, w.begin + (text + (w.end + tail)));
    StrippedConcat(w.begin, text + (w.end + tail));
    StrippedConcat(text, w.end + tail);
    StrippedConcat(w.end, tail);
    StrippedNothing(w.begin);
    StrippedNothing(w.end);
    StrippedLineEnd(lead);
    StrippedLineEnd(tail);
    assert ("\r" + BlockOf(w, lead, text, tail))[1..] == BlockOf(w, lead, text, tail);
  }

  lemma StrippedLineEnd(s: Bytes)
    requires IsLineEnd(s)
    ensures Stripped(s) == "\n"
  {
    assert "\r\n"[1..] == "\n" && Stripped("\n") == "\n" && Stripped("\r\n") == Stripped("\n");
  }

  lemma SameText(w: Wording, a: Bytes, b: Bytes)
    requires BlockOf(w, "\n", a, "\n") == BlockOf(w, "\n", b, "\n")
    ensures a == b
  {
    var rest := w.end + "\n";
    var start := |"\n" + w.begin|;
    assert |a| == |b|;
    assert BlockOf(w, "\n", a, "\n")[start..start + |a|] == a;
    assert BlockOf(w, "\n", b, "\n")[start..start + |b|] == b;
  }

  /** A block whose text differs from the published one by more than carriage
      returns is the user's: both plans are a conflict that changes nothing, and
      the block counts as nobody's remainder. */
  lemma EditedBlockStays(w: Wording, pre: Bytes, lead: Bytes, text: Bytes, tail: Bytes, post: Bytes)
    requires w.WellFormed() && Unmarked(w, pre) && Unmarked(w, post)
    requires IsLineEnd(lead) && IsLineEnd(tail) && '<' !in text && Stripped(text) != w.text
    ensures var body := pre + (BlockOf(w, lead, text, tail) + post);
      && Install(w, {w.Rule()}, body) == Remove(w, {w.Rule()}, body) == Plan(Conflict, Some(body), Some(body))
      && OwnedRuleRemainder(w, {w.Rule()}, body) == None
  {
    var block := BlockOf(w, lead, text, tail);
    EditedFound(w, pre, lead, text, tail, post);
    EditedUnknown(w, lead, text, tail);
    UnknownBlockStays(w, {w.Rule()}, pre + (block + post), ReturnIf(lead == "\n" && EndsInReturn(pre), block));
  }

  lemma EditedFound(w: Wording, pre: Bytes, lead: Bytes, text: Bytes, tail: Bytes, post: Bytes)
    requires w.WellFormed() && Unmarked(w, pre) && Unmarked(w, post)
    requires IsLineEnd(lead) && IsLineEnd(tail) && '<' !in text
    ensures var found := FindBlock(w, pre + (BlockOf(w, lead, text, tail) + post));
      && found.Block?
      && Slice(pre + (BlockOf(w, lead, text, tail) + post), found.start, found.finish) ==
         ReturnIf(lead == "\n" && EndsInReturn(pre), BlockOf(w, lead, text, tail))
  {
    FindAround(w, pre, lead, text, tail, post);
    EditedSlice(pre, lead, BlockOf(w, lead, text, tail), post);
  }

  lemma UnknownBlockStays(w: Wording, known: set<Bytes>, body: Bytes, block: Bytes)
    requires w.WellFormed() && FindBlock(w, body).Block? && block != w.Rule()
    requires Slice(body, FindBlock(w, body).start, FindBlock(w, body).finish) == block
    ensures !KnownPayload(block, known) ==>
      && Install(w, known, body) == Remove(w, known, body) == Plan(Conflict, Some(body), Some(body))
      && OwnedRuleRemainder(w, known, body) == None
  {
  }

  lemma EditedSlice(pre: Bytes, lead: Bytes, block: Bytes, post: Bytes)
    ensures Slice(pre + (block + post), if lead == "\n" then |DropReturn(pre)| else |pre|, |pre| + |block|) ==
            ReturnIf(lead == "\n" && EndsInReturn(pre), block)
  {
    var body := pre + (block + post);
    assert body[|pre|..|pre| + |block|] == block;
    if lead == "\n" && EndsInReturn(pre) {
      assert body[|pre| - 1..|pre| + |block|] == [pre[|pre| - 1]] + block;
    }
  }

  lemma EditedUnknown(w: Wording, lead: Bytes, text: Bytes, tail: Bytes)
    requires w.WellFormed() && IsLineEnd(lead) && IsLineEnd(tail) && Stripped(text) != w.text
    ensures forall returned: bool ::
      var found := ReturnIf(returned, BlockOf(w, lead, text, tail));
      found != w.Rule() && !KnownPayload(found, {w.Rule()})
  {
    var rule := w.Rule();
    assert rule == BlockOf(w, "\n", w.text, "\n");
    StrippedLines(w, lead, text, tail);
    StrippedLines(w, "\n", w.text, "\n");
    StrippedNothing(w.text);
    if BlockOf(w, "\n", Stripped(text), "\n") == rule {
      SameText(w, Stripped(text), w.text);
    }
    forall returned: bool
      ensures ReturnIf(returned, BlockOf(w, lead, text, tail)) != rule
      ensures !KnownPayload(ReturnIf(returned, BlockOf(w, lead, text, tail)), {rule})
    {
      KnownExactly(ReturnIf(returned, BlockOf(w, lead, text, tail)), {rule});
    }
  }

  /** A body with one marker only, or with one of them twice, is left alone. */
  lemma MisplacedMarkers(w: Wording, known: set<Bytes>, body: Bytes)
    requires w.WellFormed() && !Unmarked(w, body)
    requires !((exists i: nat :: JustAt(body, w.begin, i)) && (exists i: nat :: JustAt(body, w.end, i)))
    ensures Install(w, known, body) == Remove(w, known, body) == Plan(Conflict, Some(body), Some(body))
    ensures OwnedRuleRemainder(w, known, body) == None
  {
    CountOne(body, w.begin);
    CountOne(body, w.end);
    if Find(body, w.begin, 0).None? && Find(body, w.end, 0).None? {
      assert Unmarked(w, body);
    }
  }

  // ---------- Text around an owned block ----------

  /** The block that a body holds is one that some release published. */
  predicate Owned(w: Wording, known: set<Bytes>, body: Bytes)
    requires w.WellFormed()
  {
    var found := FindBlock(w, body);
    found.Block? && KnownPayload(Slice(body, found.start, found.finish), known)
  }

  lemma OwnedIsInOrder(w: Wording, known: set<Bytes>, body: Bytes)
    requires Published(w, known) && Owned(w, known, body)
    ensures var found := FindBlock(w, body);
      found.start < found.finish && Unmarked(w, body[..found.start]) && Unmarked(w, body[found.finish..])
  {
    OwnedBlockIsLong(w, known, body, FindBlock(w, body));
    LongIsInOrder(w, body, FindBlock(w, body));
  }

  lemma LongIsInOrder(w: Wording, body: Bytes, found: Block)
    requires w.WellFormed() && found == FindBlock(w, body) && found.Block?
    requires !AtMostLineEnd(Slice(body, found.start, found.finish))
    ensures found.start < found.finish && Unmarked(w, body[..found.start]) && Unmarked(w, body[found.finish..])
  {
    var first, second := BlockPlaces(w, body);
    PlacesInOrder(w, body, first, second);
  }

  lemma PlacesInOrder(w: Wording, body: Bytes, first: nat, second: nat)
    requires w.WellFormed() && JustAt(body, w.begin, first) && JustAt(body, w.end, second)
    requires Occurs(body, w.begin, first) && Occurs(body, w.end, second)
    requires !AtMostLineEnd(Slice(body, LeadStart(body, first), TailFinish(body, second + |w.end|)))
    ensures var start, finish := LeadStart(body, first), TailFinish(body, second + |w.end|);
      start < finish && Unmarked(w, body[..start]) && Unmarked(w, body[finish..])
  {
    MarkersInOrder(w.begin, w.end, body, first, second);
    UnmarkedOutside(w, body, first, second, LeadStart(body, first), TailFinish(body, second + |w.end|));
  }

  lemma OwnedBlockIsLong(w: Wording, known: set<Bytes>, body: Bytes, found: Block)
    requires Published(w, known) && Owned(w, known, body) && found == FindBlock(w, body)
    ensures !AtMostLineEnd(Slice(body, found.start, found.finish))
  {
    LineEndUnknown(w, known, Slice(body, found.start, found.finish));
  }

  /** Where the markers of a block are. */
  lemma BlockPlaces(w: Wording, body: Bytes) returns (first: nat, second: nat)
    requires IsMarker(w.begin) && IsMarker(w.end) && FindBlock(w, body).Block?
    ensures Occurs(body, w.begin, first) && Occurs(body, w.end, second)
    ensures JustAt(body, w.begin, first) && JustAt(body, w.end, second)
    ensures FindBlock(w, body) == Block(LeadStart(body, first), TailFinish(body, second + |w.end|))
  {
    first, second := BlockFinds(w, body);
    CountOne(body, w.begin);
    CountOne(body, w.end);
  }

  lemma BlockFinds(w: Wording, body: Bytes) returns (first: nat, second: nat)
    requires w.begin != [] && w.end != [] && FindBlock(w, body).Block?
    ensures Find(body, w.begin, 0) == Some(first) && Find(body, w.end, 0) == Some(second)
    ensures Count(body, w.begin, 0) == 1 && Count(body, w.end, 0) == 1
    ensures first <= |body| && second + |w.end| <= |body|
    ensures FindBlock(w, body) == Block(LeadStart(body, first), TailFinish(body, second + |w.end|))
  {
    first, second := Find(body, w.begin, 0).value, Find(body, w.end, 0).value;
  }

  lemma UnmarkedOutside(w: Wording, body: Bytes, first: nat, second: nat, start: nat, finish: nat)
    requires w.begin != [] && w.end != [] && JustAt(body, w.begin, first) && JustAt(body, w.end, second)
    requires start <= first < second < finish <= |body|
    ensures Unmarked(w, body[..start]) && Unmarked(w, body[finish..])
  {
    forall i: nat
      ensures !Occurs(body[..start], w.begin, i) && !Occurs(body[..start], w.end, i)
      ensures !Occurs(body[finish..], w.begin, i) && !Occurs(body[finish..], w.end, i)
    {
      NotOutside(body, w.begin, first, start, finish, i);
      NotOutside(body, w.end, second, start, finish, i);
    }
  }

  lemma NotOutside(body: Bytes, m: Bytes, at: nat, start: nat, finish: nat, i: nat)
    requires m != [] && JustAt(body, m, at) && start <= at && at < finish <= |body|
    ensures !Occurs(body[..start], m, i) && !Occurs(body[finish..], m, i)
  {
    OccursInPart(body, m, start, i);
    OccursInPart(body, m, finish, i);
  }

  lemma OccursInPart(body: Bytes, m: Bytes, k: nat, i: nat)
    requires k <= |body|
    ensures Occurs(body[..k], m, i) ==> Occurs(body, m, i)
    ensures Occurs(body[k..], m, i) ==> Occurs(body, m, k + i)
  {
    if i + |m| <= k {
      assert body[..k][i..i + |m|] == body[i..i + |m|];
    }
    if k + i + |m| <= |body| {
      assert body[k..][i..i + |m|] == body[k + i..k + i + |m|];
    }
  }

  /** The end marker does not come first: such markers enclose a line end at most. */
  lemma MarkersInOrder(begin: Bytes, end: Bytes, body: Bytes, first: nat, second: nat)
    requires IsMarker(begin) && IsMarker(end) && !(begin <= end) && !(end <= begin)
    requires Occurs(body, begin, first) && Occurs(body, end, second)
    requires !AtMostLineEnd(Slice(body, LeadStart(body, first), TailFinish(body, second + |end|)))
    ensures first < second
  {
    NotBoth(body, begin, end, first);
    if second < first {
      WrongOrder(begin, end, body, first, second);
    }
  }

  predicate AtMostLineEnd(s: Bytes) {
    s == [] || IsLineEnd(s)
  }

  lemma WrongOrder(begin: Bytes, end: Bytes, body: Bytes, first: nat, second: nat)
    requires IsMarker(begin) && IsMarker(end) && Occurs(body, begin, first) && Occurs(body, end, second) && second < first
    ensures second + |end| <= |body|
    ensures AtMostLineEnd(Slice(body, LeadStart(body, first), TailFinish(body, second + |end|)))
  {
    MarkersApart(body, end, begin, second, first);
    FirstOf(body, begin, first);
    LastOf(body, end, second);
    Unordered(body, second + |end|, first);
  }

  lemma Unordered(body: Bytes, finish: nat, start: nat)
    requires 0 < finish <= start < |body| && body[finish - 1] !in "\r\n" && body[start] !in "\r\n"
    ensures AtMostLineEnd(Slice(body, LeadStart(body, start), TailFinish(body, finish)))
  {
    var s, f := LeadStart(body, start), TailFinish(body, finish);
    if finish + 1 < start {
      assert body[finish..finish + 2] == [body[finish], body[finish + 1]];
      assert body[start - 2..start] == [body[start - 2], body[start - 1]];
      assert s < f ==> s == finish && f == start == finish + 2 && body[s..f] == body[start - 2..start] == "\r\n";
      assert s == f ==> body[s..f] == [];
    } else if finish + 1 == start {
      assert body[finish..finish + 2] == [body[finish], body[start]];
      if start >= 2 {
        assert body[start - 2..start] == [body[finish - 1], body[start - 1]];
      }
      assert s < f ==> body[s..f] == [body[finish]];
    } else {
      if finish + 2 <= |body| {
        assert body[finish..finish + 2][0] == body[start];
      }
      if start >= 2 {
        assert body[start - 2..start][1] == body[finish - 1];
      }
    }
  }

  lemma LastOf(s: Bytes, m: Bytes, i: nat)
    requires IsMarker(m) && Occurs(s, m, i)
    ensures s[i + |m| - 1] !in "\r\n"
  {
    assert s[i..i + |m|][|m| - 1] == s[i + |m| - 1] && m[|m| - 1] in m;
  }

  lemma LineEndUnknown(w: Wording, known: set<Bytes>, payload: Bytes)
    requires Published(w, known)
    ensures KnownPayload(payload, known) ==> !AtMostLineEnd(payload)
  {
    assert "\r\n"[2..] == [] && ReplaceCrlf("\r\n", "\n") == "\n";
  }

  /** The text in front of the block, or the whole body when it holds no block. */
  function Front(w: Wording, body: Bytes): Bytes
    requires w.WellFormed()
  {
    var found := FindBlock(w, body);
    if found.Block? then body[..found.start] else body
  }

  function Back(w: Wording, body: Bytes): Bytes
    requires w.WellFormed()
  {
    var found := FindBlock(w, body);
    if found.Block? then body[found.finish..] else []
  }

  /** A body that a plan may change: it holds no markers, or an owned block. */
  predicate Changeable(w: Wording, known: set<Bytes>, body: Bytes)
    requires w.WellFormed()
  {
    FindBlock(w, body).NoMarkers? || Owned(w, known, body)
  }

  /** Text around the block survives both plans; anything else than an owned block is left alone. */
  lemma TextAroundSurvives(w: Wording, known: set<Bytes>, body: Bytes)
    requires Published(w, known)
    ensures Changeable(w, known, body) ==>
      && Install(w, known, body).after == Some(Front(w, body) + w.Rule() + Back(w, body))
      && Remove(w, known, body).after == Some(Front(w, body) + Back(w, body))
      && body == Front(w, body) + body[|Front(w, body)|..|body| - |Back(w, body)|] + Back(w, body)
      && Unmarked(w, Front(w, body)) && Unmarked(w, Back(w, body))
    ensures !Changeable(w, known, body) ==>
      Install(w, known, body) == Remove(w, known, body) == Plan(Conflict, Some(body), Some(body))
  {
    if Owned(w, known, body) {
      TextAroundOwned(w, known, body);
    } else if FindBlock(w, body).NoMarkers? {
      TextWithoutBlock(w, known, body);
    }
  }

  lemma TextAroundOwned(w: Wording, known: set<Bytes>, body: Bytes)
    requires Published(w, known) && Owned(w, known, body)
    ensures Install(w, known, body).after == Some(Front(w, body) + w.Rule() + Back(w, body))
    ensures Remove(w, known, body).after == Some(Front(w, body) + Back(w, body))
    ensures body == Front(w, body) + body[|Front(w, body)|..|body| - |Back(w, body)|] + Back(w, body)
    ensures Unmarked(w, Front(w, body)) && Unmarked(w, Back(w, body))
  {
    OwnedIsInOrder(w, known, body);
    var found := FindBlock(w, body);
    PlansOf(w, known, body, body[..found.start], body[found.start..found.finish], body[found.finish..]);
    SplitAt(body, found.start, found.finish);
  }

  lemma SplitAt(body: Bytes, start: nat, finish: nat)
    requires start <= finish <= |body|
    ensures body == body[..start] + body[start..finish] + body[finish..]
  {
  }

  lemma TextWithoutBlock(w: Wording, known: set<Bytes>, body: Bytes)
    requires Published(w, known) && FindBlock(w, body).NoMarkers?
    ensures Install(w, known, body).after == Some(Front(w, body) + w.Rule() + Back(w, body))
    ensures Remove(w, known, body).after == Some(Front(w, body) + Back(w, body))
    ensures body == Front(w, body) + body[|Front(w, body)|..|body| - |Back(w, body)|] + Back(w, body)
    ensures Unmarked(w, Front(w, body)) && Unmarked(w, Back(w, body))
  {
    var rule := w.Rule();
    assert body + rule + [] == body + rule;
    SplitAt(body, |body|, |body|);
  }

  /** Installing twice equals installing once, and removing what was installed
      equals removing what was there, exactly when the text in front of the
      block does not end in a carriage return. */
  lemma InstallTwice(w: Wording, known: set<Bytes>, body: Bytes)
    requires Published(w, known) && Changeable(w, known, body)
    ensures var installed := Install(w, known, body).after.value;
      && (Install(w, known, installed).after == Some(installed) <==> !EndsInReturn(Front(w, body)))
      && (Remove(w, known, installed).after == Remove(w, known, body).after <==> !EndsInReturn(Front(w, body)))
      && FindBlock(w, installed).Block?
  {
    TextAroundSurvives(w, known, body);
    InstalledAgain(w, known, Front(w, body), w.Rule(), Back(w, body));
  }

  lemma InstalledAgain(w: Wording, known: set<Bytes>, pre: Bytes, rule: Bytes, post: Bytes)
    requires Published(w, known) && rule == w.Rule() && Unmarked(w, pre) && Unmarked(w, post)
    ensures Install(w, known, pre + rule + post).after == Some(pre + rule + post) <==> !EndsInReturn(pre)
    ensures Remove(w, known, pre + rule + post).after == Some(pre + post) <==> !EndsInReturn(pre)
    ensures FindBlock(w, pre + rule + post).Block?
  {
    Associate(pre, rule, post);
    Associate(DropReturn(pre), rule, post);
    InstalledRule(w, known, pre, post);
    RuleFound(w, pre, post);
    DropLonger(pre, rule + post);
    DropLonger(pre, post);
  }

  lemma Associate(a: Bytes, b: Bytes, c: Bytes)
    ensures a + b + c == a + (b + c)
  {
  }

  // ---------- Portable checkouts ----------

  lemma {:induction false} CrlfPrefix(m: Bytes, s: Bytes)
    requires m <= Crlf(s) && '\r' !in m && '\n' !in m
    ensures m <= s
  {
    if m != [] {
      assert m[0] == Crlf(s)[0];
      assert Crlf(s)[1..] == Crlf(s[1..]);
      assert m[1..] <= Crlf(s[1..]);
      CrlfPrefix(m[1..], s[1..]);
      assert m == [m[0]] + m[1..] && s == [s[0]] + s[1..];
    }
  }

  lemma CrlfShift(m: Bytes, c: char, rest: Bytes, i: nat)
    requires IsMarker(m) && i > 0 && Occurs(CrlfChar(c) + rest, m, i)
    ensures i >= |CrlfChar(c)| && Occurs(rest, m, i - |CrlfChar(c)|)
  {
    OccursApart(CrlfChar(c), rest, m, i);
  }

  /** A checkout makes no markers. */
  lemma {:induction false} CrlfUnmarked(m: Bytes, s: Bytes, i: nat)
    requires IsMarker(m) && Occurs(Crlf(s), m, i)
    ensures exists j: nat :: Occurs(s, m, j)
  {
    if i == 0 {
      CrlfPrefix(m, s);
      assert Occurs(s, m, 0);
    } else if s != [] {
      CrlfShift(m, s[0], Crlf(s[1..]), i);
      CrlfUnmarked(m, s[1..], i - |CrlfChar(s[0])|);
      var j: nat :| Occurs(s[1..], m, j);
      OccursInPart(s, m, 1, j);
    }
  }

  lemma CrlfRule(w: Wording)
    requires w.WellFormed()
    ensures Crlf(w.Rule()) == BlockOf(w, "\r\n", Crlf(w.text), "\r\n")
  {
    CrlfFirst('\n', w.begin + (w.text + (w.end + "\n")));
    CrlfConcat(w.begin, w.text + (w.end + "\n"));
    CrlfConcat(w.text, w.end + "\n");
    CrlfConcat(w.end, "\n");
    CrlfOfOneLine(w.begin);
    CrlfOfOneLine(w.end);
    assert Crlf("\n") == "\r\n";
  }

  /** After a checkout with carriage returns the installed rule is still owned,
      and removing it gives the checkout of the original body. */
  lemma CheckoutThenRemove(w: Wording, known: set<Bytes>, body: Bytes)
    requires Published(w, known) && Unmarked(w, body)
    ensures Owned(w, known, Crlf(body + w.Rule()))
    ensures Remove(w, known, Crlf(body + w.Rule())).after == Some(Crlf(body))
  {
    var pre, block := Crlf(body), Crlf(w.Rule());
    CheckoutUnmarked(w, body);
    CrlfConcat(body, w.Rule());
    CheckoutFound(w, pre);
    CheckoutKnown(w, known);
    CheckedOut(w, known, pre, block);
  }

  lemma CheckoutUnmarked(w: Wording, body: Bytes)
    requires w.WellFormed() && Unmarked(w, body)
    ensures Unmarked(w, Crlf(body))
  {
    forall m, i: nat | m == w.begin || m == w.end
      ensures !Occurs(Crlf(body), m, i)
    {
      if Occurs(Crlf(body), m, i) {
        CrlfUnmarked(m, body, i);
      }
    }
  }

  lemma CheckoutFound(w: Wording, pre: Bytes)
    requires w.WellFormed() && Unmarked(w, pre)
    ensures FindBlock(w, pre + (Crlf(w.Rule()) + [])) == Block(|pre|, |pre| + |Crlf(w.Rule())|)
  {
    CrlfRule(w);
    CrlfWithout(w.text, '<');
    EmptyUnmarked(w);
    FindAround(w, pre, "\r\n", Crlf(w.text), "\r\n", []);
  }

  /** A checked out rule is one of the known payloads. */
  lemma CheckoutKnown(w: Wording, known: set<Bytes>)
    requires Published(w, known)
    ensures KnownPayload(Crlf(w.Rule()), known)
  {
    ReplaceUndoes(w.Rule());
    assert w.Rule()[0] == '\n';
  }

  lemma CheckedOut(w: Wording, known: set<Bytes>, pre: Bytes, block: Bytes)
    requires w.WellFormed() && KnownPayload(block, known)
    requires FindBlock(w, pre + (block + [])) == Block(|pre|, |pre| + |block|)
    ensures Owned(w, known, pre + block) && Remove(w, known, pre + block).after == Some(pre)
  {
    var body := pre + block;
    assert pre + (block + []) == body;
    assert body[|pre|..|pre| + |block|] == block && body[..|pre|] == pre && body[|pre| + |block|..] == [];
    PlansOf(w, known, body, pre, block, []);
    assert pre + [] == pre;
  }
}
