/**
  The evidence scrubber (conformance/src/lib/certification-bundle-verify.ts,
  `scrubEvidence`): every live secret in every string of a document, keys included, is
  replaced by a marker, except inside a string that is wholly a hex digest.

  `tag` stands for the first twelve hex digits of the secret's SHA-256; nothing is
  assumed of it.
 */
module Scrub {
  import opened Json
  import CodeUnits
  import Utf

  type Tag = string -> string

  const OPENING: char := '\U{AB}'
  const CLOSING: char := '\U{BB}'

  function Marker(tag: Tag, secret: string): string {
    [OPENING] + "redacted:" + tag(secret) + [CLOSING]
  }

  // ---------------------------------------------------------------- strings

  predicate OccursAt(s: string, p: string, i: int) {
    0 <= i && i + |p| <= |s| && s[i..i + |p|] == p
  }

  predicate Contains(s: string, p: string) {
    exists i | 0 <= i <= |s| :: OccursAt(s, p, i)
  }

  /** `s.split(p).join(m)`: every occurrence found from the left is replaced. */
  function ReplaceAll(s: string, p: string, m: string): string
    requires p != ""
  {
    if |s| < |p| then s
    else if s[..|p|] == p then m + ReplaceAll(s[|p|..], p, m)
    else [s[0]] + ReplaceAll(s[1..], p, m)
  }

  predicate IsSpace(c: char) {
    '\t' <= c <= '\r' || c == ' ' || c == '\U{A0}' || c == '\U{1680}' || '\U{2000}' <= c <= '\U{200A}'
    || c == '\U{2028}' || c == '\U{2029}' || c == '\U{202F}' || c == '\U{205F}' || c == '\U{3000}' || c == '\U{FEFF}'
  }

  /** `s.trim() === ''`. */
  predicate Blank(s: string) {
    forall i | 0 <= i < |s| :: IsSpace(s[i])
  }

  predicate IsHexDigit(c: char) {
    '0' <= c <= '9' || 'a' <= c <= 'f' || 'A' <= c <= 'F'
  }

  predicate IsHexRun(s: string) {
    |s| >= 32 && forall i | 0 <= i < |s| :: IsHexDigit(s[i])
  }

  function Lower(c: char): char {
    if 'A' <= c <= 'Z' then (c as int + 32) as char else c
  }

  /** A string that is wholly a digest: 32 or more hex digits, after an optional `sha256:` in any case. */
  predicate IsHexDigest(s: string) {
    IsHexRun(s)
    || (|s| >= 7 && Lower(s[0]) == 's' && Lower(s[1]) == 'h' && Lower(s[2]) == 'a' && s[3..7] == "256:"
        && IsHexRun(s[7..]))
  }

  /** Replace each secret in turn. */
  function ReplaceEach(tag: Tag, live: seq<string>, s: string): string
    requires "" !in live
  {
    if live == [] then s
    else
      var rest := ReplaceEach(tag, live[..|live| - 1], s);
      var secret := live[|live| - 1];
      if Contains(rest, secret) then ReplaceAll(rest, secret, Marker(tag, secret)) else rest
  }

  predicate Exempt(live: seq<string>, s: string) {
    IsHexDigest(s) && s !in live
  }

  function ScrubText(tag: Tag, live: seq<string>, s: string): string
    requires "" !in live
  {
    if Exempt(live, s) then s else ReplaceEach(tag, live, s)
  }

  /** A string the scrubber must touch. */
  predicate Dirty(live: seq<string>, s: string) {
    !Exempt(live, s) && exists k | 0 <= k < |live| :: Contains(s, live[k])
  }

  // ---------------------------------------------------------------- documents

  datatype Step = Name(key: string) | Index(i: nat)
  type Path = seq<Step>

  /** `out[k] = v`. Assigning `__proto__` sets the prototype and adds no member. */
  function Assign(out: seq<Member>, k: string, v: Json): seq<Member> {
    if k == "__proto__" then out
    else if k in Keys(out) then out[Find(out, k) := Member(k, v)]
    else out + [Member(k, v)]
  }

  function ScrubJson(tag: Tag, live: seq<string>, v: Json): Json
    requires "" !in live
    decreases v, 1
  {
    match v
    case Str(s) => Str(ScrubText(tag, live, s))
    case Arr(items) => Arr(seq(|items|, i requires 0 <= i < |items| => ScrubJson(tag, live, items[i])))
    case Obj(ms) => Obj(ScrubMembers(tag, live, ms))
    case _ => v
  }

  function ScrubMembers(tag: Tag, live: seq<string>, ms: seq<Member>): seq<Member>
    requires "" !in live
    decreases ms, 0
  {
    if ms == [] then []
    else
      var m := ms[|ms| - 1];
      Assign(ScrubMembers(tag, live, ms[..|ms| - 1]), ScrubText(tag, live, m.key), ScrubJson(tag, live, m.value))
  }

  /** The paths of the dirty strings, in document order: a key, then its value. */
  function Hits(live: seq<string>, v: Json, path: Path): seq<Path>
    decreases v, 1
  {
    match v
    case Str(s) => if Dirty(live, s) then [path] else []
    case Arr(items) => HitsInItems(live, items, path)
    case Obj(ms) => HitsInMembers(live, ms, path)
    case _ => []
  }

  function HitsInItems(live: seq<string>, items: seq<Json>, path: Path): seq<Path>
    decreases items, 0
  {
    if items == [] then []
    else
      var n := |items| - 1;
      HitsInItems(live, items[..n], path) + Hits(live, items[n], path + [Index(n)])
  }

  function HitsInMember(live: seq<string>, m: Member, path: Path): seq<Path>
    decreases m, 0
  {
    var at := path + [Name(m.key)];
    (if Dirty(live, m.key) then [at] else []) + Hits(live, m.value, at)
  }

  function HitsInMembers(live: seq<string>, ms: seq<Member>, path: Path): seq<Path>
    decreases ms, 0
  {
    if ms == [] then []
    else HitsInMembers(live, ms[..|ms| - 1], path) + HitsInMember(live, ms[|ms| - 1], path)
  }

  // ---------------------------------------------------------------- the scrubber

  /** `s.length`: UTF-16 code units. */
  function Width(s: string): nat {
    if s == "" then 0 else |Utf.UnitsOf(s[0] as int)| + Width(s[1..])
  }

  lemma {:induction false} WidthCountsUnits(s: string)
    ensures Width(s) == |CodeUnits.Units(s)|
  {
    if s == "" {
    } else {
      WidthCountsUnits(s[1..]);
    }
  }

  ghost predicate LongestFirst(live: seq<string>) {
    forall i, k | 0 <= i < k < |live| :: Width(live[i]) >= Width(live[k]) && live[i] != live[k]
  }

  /** Before the first shorter one. */
  function Place(live: seq<string>, q: string): (p: nat)
    requires LongestFirst(live)
    ensures p <= |live|
    ensures forall i | 0 <= i < p :: Width(live[i]) >= Width(q)
    ensures forall i | p <= i < |live| :: Width(live[i]) < Width(q)
  {
    if live == [] || Width(live[|live| - 1]) >= Width(q) then |live| else Place(live[..|live| - 1], q)
  }

  function Inserted(live: seq<string>, q: string, p: nat): (r: seq<string>)
    requires p <= |live|
    ensures |r| == |live| + 1 && r[p] == q
    ensures forall i | 0 <= i < p :: r[i] == live[i]
    ensures forall i | p < i < |r| :: r[i] == live[i - 1]
  {
    live[..p] + [q] + live[p..]
  }

  lemma InsertedHas(live: seq<string>, q: string, p: nat, s: string)
    requires p <= |live|
    ensures s in Inserted(live, q, p) <==> s in live || s == q
  {
    assert live == live[..p] + live[p..];
  }

  lemma InsertedInOrder(live: seq<string>, q: string, p: nat)
    requires LongestFirst(live) && q !in live && p <= |live|
    requires forall i | 0 <= i < p :: Width(live[i]) >= Width(q)
    requires forall i | p <= i < |live| :: Width(live[i]) < Width(q)
    ensures LongestFirst(Inserted(live, q, p))
  {
    var r := Inserted(live, q, p);
    forall i, k | 0 <= i < k < |r|
      ensures Width(r[i]) >= Width(r[k]) && r[i] != r[k]
    {
      var a, b := if i < p then i else i - 1, if k < p then k else k - 1;
      if i != p && k != p {
        assert r[i] == live[a] && r[k] == live[b] && a < b;
      } else if i == p {
        assert r[k] == live[b] && b >= p;
      } else {
        assert r[i] == live[i];
      }
    }
  }

  function Placed(live: seq<string>, q: string): (r: seq<string>)
    requires LongestFirst(live) && q !in live
    ensures LongestFirst(r) && forall s :: s in r <==> s in live || s == q
  {
    var p := Place(live, q);
    InsertedInOrder(live, q, p);
    assert forall s :: s in Inserted(live, q, p) <==> s in live || s == q by {
      forall s { InsertedHas(live, q, p, s); }
    }
    Inserted(live, q, p)
  }

  /** The secrets worth scrubbing: not blank, each once, longer ones first, else in the order given. */
  function Live(secrets: seq<string>): (live: seq<string>)
    ensures LongestFirst(live) && forall q :: q in live <==> q in secrets && !Blank(q)
  {
    if secrets == [] then []
    else
      var before, q := Live(secrets[..|secrets| - 1]), secrets[|secrets| - 1];
      assert secrets == secrets[..|secrets| - 1] + [q];
      if Blank(q) || q in before then before else Placed(before, q)
  }

  method LiveSecrets(secrets: seq<string>) returns (live: seq<string>)
    ensures live == Live(secrets)
  {
    live := [];
    for n := 0 to |secrets|
      invariant live == Live(secrets[..n])
    {
      var q := secrets[n];
      assert secrets[..n + 1][..n] == secrets[..n];
      if !Blank(q) && q !in live {
        live := Inserted(live, q, Place(live, q));
      }
    }
    assert secrets[..|secrets|] == secrets;
  }

  method ScrubString(tag: Tag, live: seq<string>, s: string, path: Path, redactedAt: seq<Path>)
    returns (out: string, redactedAt': seq<Path>)
    requires "" !in live
    ensures out == ScrubText(tag, live, s)
    ensures redactedAt' == redactedAt + if Dirty(live, s) then [path] else []
  {
    if IsHexDigest(s) && s !in live { return s, redactedAt; }
    out, redactedAt' := s, redactedAt;
    var hit := false;
    for k := 0 to |live|
      invariant out == ReplaceEach(tag, live[..k], s)
      invariant hit <==> exists i | 0 <= i < k :: Contains(s, live[i])
      invariant !hit ==> out == s
    {
      assert live[..k + 1][..k] == live[..k];
      if Contains(out, live[k]) {
        out := ReplaceAll(out, live[k], Marker(tag, live[k]));
        hit := true;
      }
    }
    assert live[..|live|] == live;
    if hit { redactedAt' := redactedAt + [path]; }
  }

  method Walk(tag: Tag, live: seq<string>, v: Json, path: Path, redactedAt: seq<Path>)
    returns (out: Json, redactedAt': seq<Path>)
    requires "" !in live
    ensures out == ScrubJson(tag, live, v)
    ensures redactedAt' == redactedAt + Hits(live, v, path)
    decreases v, 1
  {
    match v {
      case Str(s) =>
        var text;
        text, redactedAt' := ScrubString(tag, live, s, path, redactedAt);
        out := Str(text);
      case Arr(items) =>
        var mapped;
        mapped, redactedAt' := WalkItems(tag, live, items, path, redactedAt);
        out := Arr(mapped);
      case Obj(ms) =>
        var members;
        members, redactedAt' := WalkMembers(tag, live, ms, path, redactedAt);
        out := Obj(members);
      case _ =>
        out, redactedAt' := v, redactedAt;
    }
  }

  /** What the loop has done after the items `done`. */
  ghost predicate WalkedItems(
      tag: Tag, live: seq<string>, done: seq<Json>, path: Path,
      before: seq<Path>, out: seq<Json>, redactedAt: seq<Path>)
    requires "" !in live
  {
    |out| == |done| && (forall k | 0 <= k < |done| :: out[k] == ScrubJson(tag, live, done[k]))
    && redactedAt == before + HitsInItems(live, done, path)
  }

  lemma WalkedItem(
      tag: Tag, live: seq<string>, items: seq<Json>, i: nat, path: Path,
      before: seq<Path>, out: seq<Json>, redactedAt: seq<Path>)
    requires "" !in live && i < |items| && WalkedItems(tag, live, items[..i], path, before, out, redactedAt)
    ensures WalkedItems(tag, live, items[..i + 1], path, before, out + [ScrubJson(tag, live, items[i])],
                        redactedAt + Hits(live, items[i], path + [Index(i)]))
  {
    assert items[..i + 1][..i] == items[..i];
    Reassociate(before, HitsInItems(live, items[..i], path), Hits(live, items[i], path + [Index(i)]));
  }

  lemma Reassociate<T>(a: seq<T>, b: seq<T>, c: seq<T>)
    ensures (a + b) + c == a + (b + c)
  {}

  method WalkItems(tag: Tag, live: seq<string>, items: seq<Json>, path: Path, redactedAt: seq<Path>)
    returns (out: seq<Json>, redactedAt': seq<Path>)
    requires "" !in live
    ensures WalkedItems(tag, live, items, path, redactedAt, out, redactedAt')
    decreases items, 0
  {
    out, redactedAt' := [], redactedAt;
    for i := 0 to |items|
      invariant WalkedItems(tag, live, items[..i], path, redactedAt, out, redactedAt')
    {
      WalkedItem(tag, live, items, i, path, redactedAt, out, redactedAt');
      var x;
      x, redactedAt' := Walk(tag, live, items[i], path + [Index(i)], redactedAt');
      out := out + [x];
    }
    assert items[..|items|] == items;
  }

  /** One turn of the loop over an object's members. */
  method WalkMember(tag: Tag, live: seq<string>, m: Member, path: Path, out: seq<Member>, redactedAt: seq<Path>)
    returns (out': seq<Member>, redactedAt': seq<Path>)
    requires "" !in live
    ensures out' == Assign(out, ScrubText(tag, live, m.key), ScrubJson(tag, live, m.value))
    ensures redactedAt' == redactedAt + HitsInMember(live, m, path)
    decreases m, 0
  {
    var at := path + [Name(m.key)];
    var k, hits := ScrubString(tag, live, m.key, at, redactedAt);
    var x;
    x, redactedAt' := Walk(tag, live, m.value, at, hits);
    out' := Assign(out, k, x);
  }

  /** What the loop has done after the members `done`. */
  ghost predicate Walked(
      tag: Tag, live: seq<string>, done: seq<Member>, path: Path,
      before: seq<Path>, out: seq<Member>, redactedAt: seq<Path>)
    requires "" !in live
  {
    out == ScrubMembers(tag, live, done) && redactedAt == before + HitsInMembers(live, done, path)
  }

  lemma WalkedStep(
      tag: Tag, live: seq<string>, ms: seq<Member>, i: nat, path: Path,
      before: seq<Path>, out: seq<Member>, redactedAt: seq<Path>)
    requires "" !in live && i < |ms| && Walked(tag, live, ms[..i], path, before, out, redactedAt)
    ensures Walked(tag, live, ms[..i + 1], path, before,
                   Assign(out, ScrubText(tag, live, ms[i].key), ScrubJson(tag, live, ms[i].value)),
                   redactedAt + HitsInMember(live, ms[i], path))
  {
    assert ms[..i + 1][..i] == ms[..i];
    Reassociate(before, HitsInMembers(live, ms[..i], path), HitsInMember(live, ms[i], path));
  }

  method WalkMembers(tag: Tag, live: seq<string>, ms: seq<Member>, path: Path, redactedAt: seq<Path>)
    returns (out: seq<Member>, redactedAt': seq<Path>)
    requires "" !in live
    ensures Walked(tag, live, ms, path, redactedAt, out, redactedAt')
    decreases ms, 0
  {
    out, redactedAt' := [], redactedAt;
    for i := 0 to |ms|
      invariant Walked(tag, live, ms[..i], path, redactedAt, out, redactedAt')
    {
      WalkedStep(tag, live, ms, i, path, redactedAt, out, redactedAt');
      out, redactedAt' := WalkMember(tag, live, ms[i], path, out, redactedAt');
    }
    assert ms[..|ms|] == ms;
  }

  /** The scrubbed document: with no live secret, the document itself. */
  function Scrubbed(tag: Tag, secrets: seq<string>, value: Json): Json {
    if Live(secrets) == [] then value else ScrubJson(tag, Live(secrets), value)
  }

  method ScrubEvidence(tag: Tag, value: Json, secrets: seq<string>) returns (out: Json, redactedAt: seq<Path>)
    ensures out == Scrubbed(tag, secrets, value)
    ensures redactedAt == if Live(secrets) == [] then [] else Hits(Live(secrets), value, [])
  {
    var live := LiveSecrets(secrets);
    if live == [] { return value, []; }
    out, redactedAt := Walk(tag, live, value, [], []);
  }

  // ---------------------------------------------------------------- which secrets are scrubbed clean

  /** No secret is empty or holds one of the characters that delimit a marker. */
  predicate Plain(live: seq<string>) {
    "" !in live && Avoids(live, OPENING) && Avoids(live, CLOSING)
  }

  predicate Avoids(live: seq<string>, d: char) {
    forall q | q in live :: d !in q
  }

  /** What the secrets after it make of any secret's marker does not hold `q`. A caller can compute this. */
  predicate MarkersAvoid(tag: Tag, live: seq<string>, q: string)
    requires "" !in live
  {
    forall k | 0 <= k < |live| :: !Contains(ReplaceEach(tag, live[k + 1..], Marker(tag, live[k])), q)
  }

  predicate MarkersClean(tag: Tag, live: seq<string>)
    requires "" !in live
  {
    forall q | q in live :: MarkersAvoid(tag, live, q)
  }

  /** The secrets that scrubbing gets rid of. */
  predicate Sound(tag: Tag, live: seq<string>) {
    Plain(live) && MarkersClean(tag, live)
  }

  // ---------------------------------------------------------------- what replacing does around a marker

  lemma {:induction false} NothingToReplace(s: string, p: string, m: string)
    requires p != "" && !Contains(s, p)
    ensures ReplaceAll(s, p, m) == s
  {
    if |s| < |p| {
    } else {
      assert !OccursAt(s, p, 0);
      if Contains(s[1..], p) { ContainedInTail(s, 1, p); }
      NothingToReplace(s[1..], p, m);
    }
  }

  lemma {:induction false} ReplaceAtDelimiter(x: string, d: char, y: string, p: string, m: string)
    requires p != "" && d !in p
    ensures ReplaceAll(x + [d] + y, p, m) == ReplaceAll(x, p, m) + [d] + ReplaceAll(y, p, m)
    decreases |x|
  {
    var s := x + [d] + y;
    if x == "" {
      NoneAtDelimiter(x, d, y, p);
      assert s[1..] == y;
    } else if p <= x {
      assert s[..|p|] == p;
      DropAround(x, d, y, |p|);
      ReplaceAtDelimiter(x[|p|..], d, y, p, m);
    } else {
      NoneAtDelimiter(x, d, y, p);
      DropAround(x, d, y, 1);
      ReplaceAtDelimiter(x[1..], d, y, p, m);
    }
  }

  lemma NoneAtDelimiter(x: string, d: char, y: string, p: string)
    requires p != "" && d !in p && !(p <= x)
    ensures !(p <= x + [d] + y)
  {
    var s := x + [d] + y;
    if |p| > |x| {
      assert p[|x|] in p && s[|x|] == d;
    } else {
      assert s[..|p|] == x[..|p|];
    }
  }

  lemma DropAround(x: string, d: char, y: string, n: nat)
    requires n <= |x|
    ensures (x + [d] + y)[n..] == x[n..] + [d] + y
  {}

  lemma EachStep(tag: Tag, live: seq<string>, s: string)
    requires "" !in live && live != []
    ensures var last := live[|live| - 1];
            ReplaceEach(tag, live, s) == ReplaceAll(ReplaceEach(tag, live[..|live| - 1], s), last, Marker(tag, last))
  {
    var rest, last := ReplaceEach(tag, live[..|live| - 1], s), live[|live| - 1];
    if !Contains(rest, last) { NothingToReplace(rest, last, Marker(tag, last)); }
  }

  lemma {:induction false} EachAtDelimiter(tag: Tag, live: seq<string>, x: string, d: char, y: string)
    requires "" !in live && Avoids(live, d)
    ensures ReplaceEach(tag, live, x + [d] + y) == ReplaceEach(tag, live, x) + [d] + ReplaceEach(tag, live, y)
  {
    if live == [] {
    } else {
      var init, last := live[..|live| - 1], live[|live| - 1];
      assert forall q | q in init :: q in live;
      assert last in live;
      EachAtDelimiter(tag, init, x, d, y);
      EachStep(tag, live, x + [d] + y);
      EachStep(tag, live, x);
      EachStep(tag, live, y);
      ReplaceAtDelimiter(ReplaceEach(tag, init, x), d, ReplaceEach(tag, init, y), last, Marker(tag, last));
    }
  }

  lemma {:induction false} EachOfNothing(tag: Tag, live: seq<string>)
    requires "" !in live
    ensures ReplaceEach(tag, live, "") == ""
  {
    if live == [] {
    } else {
      EachOfNothing(tag, live[..|live| - 1]);
      EachStep(tag, live, "");
    }
  }

  /** A marker is never merged with its surroundings. */
  lemma EachAtMarker(tag: Tag, live: seq<string>, x: string, r: string, y: string)
    requires Plain(live)
    ensures ReplaceEach(tag, live, x + Marker(tag, r) + y)
         == ReplaceEach(tag, live, x) + ReplaceEach(tag, live, Marker(tag, r)) + ReplaceEach(tag, live, y)
  {
    MarkerIsWrapped(tag, r);
    EachAtEnds(tag, live, x, "redacted:" + tag(r), y);
    EachOfMarker(tag, live, r);
  }

  function Wrapped(body: string): string {
    [OPENING] + body + [CLOSING]
  }

  lemma MarkerIsWrapped(tag: Tag, r: string)
    ensures Marker(tag, r) == Wrapped("redacted:" + tag(r))
  {}

  lemma EachOfMarker(tag: Tag, live: seq<string>, r: string)
    requires Plain(live)
    ensures ReplaceEach(tag, live, Marker(tag, r)) == Wrapped(ReplaceEach(tag, live, "redacted:" + tag(r)))
  {
    var body := "redacted:" + tag(r);
    MarkerIsWrapped(tag, r);
    EachOfNothing(tag, live);
    EachAtEnds(tag, live, "", body, "");
    NothingAround(Wrapped(body));
    NothingAround(Wrapped(ReplaceEach(tag, live, body)));
  }

  lemma NothingAround(s: string)
    ensures "" + s + "" == s
  {}

  lemma EachAtEnds(tag: Tag, live: seq<string>, x: string, body: string, y: string)
    requires Plain(live)
    ensures ReplaceEach(tag, live, x + Wrapped(body) + y)
         == ReplaceEach(tag, live, x) + Wrapped(ReplaceEach(tag, live, body)) + ReplaceEach(tag, live, y)
  {
    Regroup(x, body, y);
    EachAtDelimiter(tag, live, x, OPENING, body + [CLOSING] + y);
    EachAtDelimiter(tag, live, body, CLOSING, y);
    Regroup(ReplaceEach(tag, live, x), ReplaceEach(tag, live, body), ReplaceEach(tag, live, y));
  }

  lemma Regroup(x: string, body: string, y: string)
    ensures x + Wrapped(body) + y == x + [OPENING] + (body + [CLOSING] + y)
  {}

  /** The secrets of a list can be replaced in two goes. */
  lemma {:induction false} EachComposes(tag: Tag, live: seq<string>, n: nat, s: string)
    requires "" !in live && n <= |live|
    ensures ReplaceEach(tag, live, s) == ReplaceEach(tag, live[n..], ReplaceEach(tag, live[..n], s))
    decreases |live|
  {
    if n == |live| {
      assert live[..n] == live && live[n..] == [];
    } else {
      var init := live[..|live| - 1];
      assert init[..n] == live[..n] && init[n..] == live[n..][..|live[n..]| - 1];
      EachComposes(tag, init, n, s);
      EachStep(tag, live, s);
      EachStep(tag, live[n..], ReplaceEach(tag, live[..n], s));
    }
  }

  lemma HeadOccurs(s: string, n: nat, p: string, i: nat)
    requires n <= |s|
    ensures OccursAt(s[..n], p, i) <==> i + |p| <= n && OccursAt(s, p, i)
  {
    if i + |p| <= n { assert s[..n][i..i + |p|] == s[i..i + |p|]; }
  }

  lemma TailOccurs(s: string, n: nat, p: string, i: nat)
    requires n <= |s|
    ensures OccursAt(s[n..], p, i) <==> OccursAt(s, p, n + i)
  {
    if n + i + |p| <= |s| { assert s[n..][i..i + |p|] == s[n + i..n + i + |p|]; }
  }

  lemma CharOfOccurrence(s: string, p: string, i: nat, k: nat)
    requires OccursAt(s, p, i) && i <= k < i + |p|
    ensures s[k] in p
  {
    assert s[k] == s[i..i + |p|][k - i];
  }

  /** An occurrence that avoids a character lies on one side of it. */
  lemma ContainedBeside(x: string, d: char, y: string, q: string)
    requires q != "" && d !in q && Contains(x + [d] + y, q)
    ensures Contains(x, q) || Contains(y, q)
  {
    var s := x + [d] + y;
    assert s[..|x|] == x && s[|x| + 1..] == y && s[|x|] == d;
    var i :| 0 <= i <= |s| && OccursAt(s, q, i);
    if i + |q| <= |x| {
      HeadOccurs(s, |x|, q, i);
    } else if i > |x| {
      TailOccurs(s, |x| + 1, q, i - |x| - 1);
    } else {
      CharOfOccurrence(s, q, i, |x|);
    }
  }

  lemma ContainedInHead(s: string, k: nat, q: string)
    requires k <= |s| && Contains(s[..k], q)
    ensures Contains(s, q)
  {
    var i :| 0 <= i <= |s[..k]| && OccursAt(s[..k], q, i);
    HeadOccurs(s, k, q, i);
  }

  /** Where the first occurrence is replaced. */
  lemma {:induction false} FirstOccurrence(s: string, p: string, m: string) returns (i: nat)
    requires p != "" && Contains(s, p)
    ensures FirstAt(s, p, m, i)
  {
    var k :| 0 <= k <= |s| && OccursAt(s, p, k);
    if OccursAt(s, p, 0) {
      i := 0;
      FirstAtFront(s, p, m);
    } else {
      TailOccurs(s, 1, p, k - 1);
      var j := FirstOccurrence(s[1..], p, m);
      i := j + 1;
      FirstLater(s, p, m, j);
    }
  }

  ghost predicate FirstAt(s: string, p: string, m: string, i: nat) {
    p != "" && OccursAt(s, p, i) && !Contains(s[..i], p)
    && ReplaceAll(s, p, m) == s[..i] + m + ReplaceAll(s[i + |p|..], p, m)
  }

  lemma FirstAtFront(s: string, p: string, m: string)
    requires p != "" && OccursAt(s, p, 0)
    ensures FirstAt(s, p, m, 0)
  {
    assert s[..0] + m == m;
  }

  lemma FirstLater(s: string, p: string, m: string, j: nat)
    requires p != "" && s != "" && !OccursAt(s, p, 0) && FirstAt(s[1..], p, m, j)
    ensures FirstAt(s, p, m, j + 1)
  {
    TailOccurs(s, 1, p, j);
    AbsentAfterFirst(s, p, j + 1);
    PutBack(s, j, m, ReplaceAll(s[j + 1 + |p|..], p, m));
    assert s[j + 1 + |p|..] == s[1..][j + |p|..];
  }

  lemma PutBack(s: string, j: nat, m: string, rest: string)
    requires j < |s|
    ensures [s[0]] + (s[1..][..j] + m + rest) == s[..j + 1] + m + rest
  {
    assert [s[0]] + s[1..][..j] == s[..j + 1];
  }

  lemma AbsentAfterFirst(s: string, p: string, i: nat)
    requires 0 < i <= |s| && p != "" && |p| <= |s| && s[..|p|] != p && !Contains(s[1..][..i - 1], p)
    ensures !Contains(s[..i], p)
  {
    forall k | 0 <= k <= |s[..i]|
      ensures !OccursAt(s[..i], p, k)
    {
      HeadOccurs(s, i, p, k);
      if k > 0 {
        TailOccurs(s, 1, p, k - 1);
        HeadOccurs(s[1..], i - 1, p, k - 1);
      }
    }
  }

  // ---------------------------------------------------------------- sound secrets are scrubbed clean

  predicate HoldsNone(s: string, live: seq<string>) {
    forall q | q in live :: !Contains(s, q)
  }

  lemma JoinHoldsNone(x: string, m: string, y: string, q: string)
    requires q != "" && OPENING !in q && CLOSING !in q
    requires !Contains(x, q) && !Contains(Wrapped(m), q) && !Contains(y, q)
    ensures !Contains(x + Wrapped(m) + y, q)
  {
    Regroup(x, m, y);
    if Contains(x + [OPENING] + (m + [CLOSING] + y), q) {
      ContainedBeside(x, OPENING, m + [CLOSING] + y, q);
      ContainedBeside(m, CLOSING, y, q);
      assert Wrapped(m)[1..] == m + [CLOSING] && (m + [CLOSING])[..|m|] == m;
      ContainedInHead(m + [CLOSING], |m|, q);
      ContainedInTail(Wrapped(m), 1, q);
    }
  }

  /** Text without the secrets before `k` comes out of the others' replacement without `q`. */
  lemma {:induction false} RestCleans(tag: Tag, live: seq<string>, k: nat, s: string, q: string)
    requires Plain(live) && q in live && MarkersAvoid(tag, live, q) && k <= |live| && HoldsNone(s, live[..k])
    ensures !Contains(ReplaceEach(tag, live[k..], s), q)
    decreases |live| - k, |s|
  {
    if k == |live| {
      assert live[..k] == live && live[k..] == [];
    } else {
      var p, m := live[k], Marker(tag, live[k]);
      EachFirst(tag, live, k, s);
      assert live[..k + 1] == live[..k] + [p];
      if !Contains(s, p) {
        NothingToReplace(s, p, m);
        RestCleans(tag, live, k + 1, s, q);
      } else {
        var i := FirstOccurrence(s, p, m);
        var x, y := s[..i], s[i + |p|..];
        PartsHoldNone(s, i, i + |p|, live[..k]);
        RestCleans(tag, live, k + 1, x, q);
        RestCleans(tag, live, k, y, q);
        EachFirst(tag, live, k, y);
        PiecesHoldNone(tag, live, k, x, ReplaceAll(y, p, m), q);
      }
    }
  }

  /** The secret at `k` is replaced first of those from `k` on. */
  lemma EachFirst(tag: Tag, live: seq<string>, k: nat, s: string)
    requires "" !in live && k < |live|
    ensures ReplaceEach(tag, live[k..], s)
         == ReplaceEach(tag, live[k + 1..], ReplaceAll(s, live[k], Marker(tag, live[k])))
  {
    var from := live[k..];
    assert from[..1] == [live[k]] && from[1..] == live[k + 1..] && from[..1][..0] == [];
    EachComposes(tag, from, 1, s);
    EachStep(tag, from[..1], s);
  }

  lemma PiecesHoldNone(tag: Tag, live: seq<string>, k: nat, x: string, y: string, q: string)
    requires Plain(live) && q in live && MarkersAvoid(tag, live, q) && k < |live|
    requires !Contains(ReplaceEach(tag, live[k + 1..], x), q) && !Contains(ReplaceEach(tag, live[k + 1..], y), q)
    ensures !Contains(ReplaceEach(tag, live[k + 1..], x + Marker(tag, live[k]) + y), q)
  {
    var rest, p := live[k + 1..], live[k];
    assert !Contains(ReplaceEach(tag, rest, Marker(tag, p)), q);
    EachAtMarker(tag, rest, x, p, y);
    EachOfMarker(tag, rest, p);
    JoinHoldsNone(ReplaceEach(tag, rest, x), ReplaceEach(tag, rest, "redacted:" + tag(p)),
                  ReplaceEach(tag, rest, y), q);
  }

  lemma PartsHoldNone(s: string, i: nat, j: nat, live: seq<string>)
    requires i <= j <= |s| && HoldsNone(s, live)
    ensures HoldsNone(s[..i], live) && HoldsNone(s[j..], live)
  {
    forall q | q in live
      ensures !Contains(s[..i], q) && !Contains(s[j..], q)
    {
      if Contains(s[..i], q) { ContainedInHead(s, i, q); }
      if Contains(s[j..], q) { ContainedInTail(s, j, q); }
    }
  }

  /** The secret is in no scrubbed text, except in a digest left alone. */
  ghost predicate Gone(tag: Tag, live: seq<string>, q: string)
    requires "" !in live
  {
    forall s :: Contains(ScrubText(tag, live, s), q) ==> Exempt(live, ScrubText(tag, live, s))
  }

  lemma AvoidedIsGone(tag: Tag, live: seq<string>, q: string)
    requires Plain(live) && q in live && MarkersAvoid(tag, live, q)
    ensures Gone(tag, live, q)
  {
    forall s
      ensures Contains(ScrubText(tag, live, s), q) ==> Exempt(live, ScrubText(tag, live, s))
    {
      if !Exempt(live, s) {
        assert live[..0] == [] && live[0..] == live;
        RestCleans(tag, live, 0, s, q);
      }
    }
  }

  /** A scrubbed string contains no live secret, unless it is a digest left alone. */
  lemma TextIsClean(tag: Tag, live: seq<string>, s: string)
    requires Sound(tag, live)
    ensures !Dirty(live, ScrubText(tag, live, s))
  {
    forall k | 0 <= k < |live|
      ensures Contains(ScrubText(tag, live, s), live[k]) ==> Exempt(live, ScrubText(tag, live, s))
    { AvoidedIsGone(tag, live, live[k]); }
  }

  lemma {:induction false} UntouchedText(tag: Tag, live: seq<string>, s: string)
    requires "" !in live && forall k | 0 <= k < |live| :: !Contains(s, live[k])
    ensures ReplaceEach(tag, live, s) == s
  {
    if live == [] {
    } else {
      UntouchedText(tag, live[..|live| - 1], s);
    }
  }

  // ---------------------------------------------------------------- and only those

  lemma {:induction false} WidthOfConcat(a: string, b: string)
    ensures Width(a + b) == Width(a) + Width(b)
  {
    if a == "" {
      assert a + b == b;
    } else {
      WidthOfConcat(a[1..], b);
      assert (a + b)[1..] == a[1..] + b;
    }
  }

  lemma EmptyWidth(s: string)
    ensures Width(s) == 0 <==> s == ""
  {}

  /** Only the string itself is as wide as a string it contains. */
  lemma ContainedIsNarrower(t: string, p: string)
    requires Contains(t, p) && p != t
    ensures Width(p) < Width(t)
  {
    var i :| 0 <= i <= |t| && OccursAt(t, p, i);
    var x, y := t[..i], t[i + |p|..];
    assert t == x + (p + y);
    WidthOfConcat(x, p + y);
    WidthOfConcat(p, y);
    EmptyWidth(x);
    EmptyWidth(y);
    assert x == "" && y == "" ==> t == p;
  }

  /** A secret comes unharmed through the replacement of longer ones, and then turns into its marker. */
  lemma SecretBecomesMarker(tag: Tag, live: seq<string>, k: nat)
    requires "" !in live && LongestFirst(live) && k < |live|
    ensures ReplaceEach(tag, live, live[k]) == ReplaceEach(tag, live[k + 1..], Marker(tag, live[k]))
  {
    var p, m := live[k], Marker(tag, live[k]);
    forall i | 0 <= i < k
      ensures !Contains(p, live[..k][i])
    { if Contains(p, live[i]) { ContainedIsNarrower(p, live[i]); } }
    UntouchedText(tag, live[..k], p);
    EachComposes(tag, live, k + 1, p);
    assert live[..k + 1][..k] == live[..k];
    EachStep(tag, live[..k + 1], p);
    ReplacedWhole(p, m);
  }

  lemma ReplacedWhole(p: string, m: string)
    requires p != ""
    ensures ReplaceAll(p, p, m) == m
  {}

  lemma DelimiterNoDigest(s: string, i: nat)
    requires i < |s| && (s[i] == OPENING || s[i] == CLOSING)
    ensures !IsHexDigest(s)
  {
    assert !IsHexDigit(s[i]) && !IsHexRun(s);
    if |s| >= 7 && i < 7 {
      assert i >= 3 ==> s[3..7][i - 3] == s[i];
    } else if i >= 7 {
      assert s[7..][i - 7] == s[i];
    }
  }

  /** If some secret's finished marker holds `q`, that secret is a text out of which `q` does not go. */
  lemma UncleanMarkerLeaks(tag: Tag, live: seq<string>, k: nat, q: string)
    requires Plain(live) && LongestFirst(live) && k < |live|
    requires Contains(ReplaceEach(tag, live[k + 1..], Marker(tag, live[k])), q)
    ensures Contains(ScrubText(tag, live, live[k]), q) && !Exempt(live, ScrubText(tag, live, live[k]))
  {
    var r := ReplaceEach(tag, live[k + 1..], Marker(tag, live[k]));
    SecretBecomesMarker(tag, live, k);
    EachOfMarker(tag, live[k + 1..], live[k]);
    assert live[k] in live && ScrubText(tag, live, live[k]) == r;
    DelimiterNoDigest(r, 0);
  }

  /**
    Among secrets without a delimiter, longest first, one is scrubbed out of every text if and
    only if no marker, after the replacement of the secrets that follow its own, holds it.
   */
  lemma SecretGoesExactly(tag: Tag, live: seq<string>, q: string)
    requires Plain(live) && LongestFirst(live) && q in live
    ensures Gone(tag, live, q) <==> MarkersAvoid(tag, live, q)
  {
    if MarkersAvoid(tag, live, q) {
      AvoidedIsGone(tag, live, q);
    } else {
      var k :| 0 <= k < |live| && Contains(ReplaceEach(tag, live[k + 1..], Marker(tag, live[k])), q);
      UncleanMarkerLeaks(tag, live, k, q);
    }
  }

  /** They are all scrubbed out of every text if and only if no such marker holds any of them. */
  lemma ScrubsCleanExactly(tag: Tag, live: seq<string>)
    requires Plain(live) && LongestFirst(live)
    ensures (forall s :: !Dirty(live, ScrubText(tag, live, s))) <==> MarkersClean(tag, live)
  {
    if MarkersClean(tag, live) {
      forall s
        ensures !Dirty(live, ScrubText(tag, live, s))
      { TextIsClean(tag, live, s); }
    } else {
      var q :| q in live && !MarkersAvoid(tag, live, q);
      var s := TextThatKeeps(tag, live, q);
    }
  }

  lemma TextThatKeeps(tag: Tag, live: seq<string>, q: string) returns (s: string)
    requires Plain(live) && LongestFirst(live) && q in live && !MarkersAvoid(tag, live, q)
    ensures Dirty(live, ScrubText(tag, live, s))
  {
    var k :| 0 <= k < |live| && Contains(ReplaceEach(tag, live[k + 1..], Marker(tag, live[k])), q);
    s := live[k];
    UncleanMarkerLeaks(tag, live, k, q);
  }

  lemma {:induction false} PrefixSurvives(s: string, p: string, m: string, q: string)
    requires p != "" && m != "" && m[0] !in q
    requires q <= ReplaceAll(s, p, m)
    ensures q <= s
    decreases |s|
  {
    assert q != "" ==> q[0] in q;
    if |s| < |p| || s[..|p|] == p || q == "" {
    } else {
      assert q[1..] <= ReplaceAll(s[1..], p, m);
      PrefixSurvives(s[1..], p, m, q[1..]);
    }
  }

  lemma ContainedInTail(s: string, k: nat, q: string)
    requires k <= |s| && Contains(s[k..], q)
    ensures Contains(s, q)
  {
    var i :| 0 <= i <= |s[k..]| && OccursAt(s[k..], q, i);
    assert s[k..][i..i + |q|] == s[k + i..k + i + |q|];
    assert OccursAt(s, q, k + i);
  }

  lemma OverlapHoldsLast(m: string, t: string, q: string, i: nat)
    requires OccursAt(m + t, q, i) && i < |m| < i + |q|
    ensures m[|m| - 1] in q
  {
    assert q[|m| - 1 - i] == (m + t)[|m| - 1];
  }

  /** An occurrence in `m + t` of a string that avoids the last character of `m` lies in `m` or in `t`. */
  lemma OccurrenceBeside(m: string, t: string, q: string, i: nat)
    requires m != "" && q != "" && m[|m| - 1] !in q && !Contains(m, q)
    requires OccursAt(m + t, q, i)
    ensures i >= |m| && OccursAt(t, q, i - |m|)
  {
    var r := m + t;
    if i + |q| <= |m| {
      assert m[i..i + |q|] == r[i..i + |q|];
      assert OccursAt(m, q, i);
    } else if i < |m| {
      OverlapHoldsLast(m, t, q, i);
    } else {
      assert t[i - |m|..i - |m| + |q|] == r[i..i + |q|];
    }
  }

  /** A replacement leaves no occurrence of `p`, and creates none of any other guarded string. */
  lemma {:induction false} OccurrenceSurvives(s: string, p: string, m: string, q: string, i: nat)
    requires p != "" && m != "" && q != "" && m[0] !in q && m[|m| - 1] !in q && !Contains(m, q)
    requires OccursAt(ReplaceAll(s, p, m), q, i)
    ensures q != p && Contains(s, q)
    decreases |s|
  {
    if |s| < |p| {
      assert OccursAt(s, q, i);
    } else if s[..|p|] == p {
      var t := ReplaceAll(s[|p|..], p, m);
      OccurrenceBeside(m, t, q, i);
      OccurrenceSurvives(s[|p|..], p, m, q, i - |m|);
      ContainedInTail(s, |p|, q);
    } else if i == 0 {
      PrefixSurvives(s, p, m, q);
      assert OccursAt(s, q, 0);
    } else {
      var t := ReplaceAll(s[1..], p, m);
      assert ([s[0]] + t)[i..i + |q|] == t[i - 1..i - 1 + |q|];
      assert OccursAt(t, q, i - 1);
      OccurrenceSurvives(s[1..], p, m, q, i - 1);
      ContainedInTail(s, 1, q);
    }
  }

  /** The secret holds no delimiter and occurs in no secret's marker. */
  predicate Unmarked(tag: Tag, live: seq<string>, q: string) {
    OPENING !in q && CLOSING !in q && forall r | r in live :: !Contains(Marker(tag, r), q)
  }

  lemma {:induction false} ReplaceEachCleans(tag: Tag, live: seq<string>, s: string, q: string)
    requires "" !in live && q != "" && Unmarked(tag, live, q)
    requires Contains(ReplaceEach(tag, live, s), q)
    ensures Contains(s, q)
  {
    if live == [] {
    } else {
      var p, rest := live[|live| - 1], ReplaceEach(tag, live[..|live| - 1], s);
      if Contains(rest, p) {
        var r := ReplaceAll(rest, p, Marker(tag, p));
        var i :| 0 <= i <= |r| && OccursAt(r, q, i);
        OccurrenceSurvives(rest, p, Marker(tag, p), q, i);
      }
      ReplaceEachCleans(tag, live[..|live| - 1], s, q);
    }
  }

  lemma ReplacedIsAbsent(tag: Tag, s: string, q: string)
    requires q != "" && OPENING !in q && CLOSING !in q && !Contains(Marker(tag, q), q)
    ensures !Contains(ReplaceAll(s, q, Marker(tag, q)), q)
  {
    var r := ReplaceAll(s, q, Marker(tag, q));
    forall i | 0 <= i <= |r|
      ensures !OccursAt(r, q, i)
    { if OccursAt(r, q, i) { OccurrenceSurvives(s, q, Marker(tag, q), q, i); } }
  }

  /** Whatever the other secrets are, one that is unmarked goes. */
  lemma UnmarkedGoes(tag: Tag, live: seq<string>, q: string)
    requires "" !in live && q in live && Unmarked(tag, live, q)
    ensures Gone(tag, live, q)
  {
    var k :| 0 <= k < |live| && live[k] == q;
    forall s
      ensures !Contains(ReplaceEach(tag, live, s), q)
    { UnmarkedIsReplaced(tag, live, k, s); }
  }

  lemma UnmarkedIsReplaced(tag: Tag, live: seq<string>, k: nat, s: string)
    requires "" !in live && k < |live| && Unmarked(tag, live, live[k])
    ensures !Contains(ReplaceEach(tag, live, s), live[k])
  {
    var q, before := live[k], ReplaceEach(tag, live[..k], s);
    var x := ReplaceAll(before, q, Marker(tag, q));
    EachComposes(tag, live, k, s);
    EachFirst(tag, live, k, before);
    ReplacedIsAbsent(tag, before, q);
    if Contains(ReplaceEach(tag, live[k + 1..], x), q) { ReplaceEachCleans(tag, live[k + 1..], x, q); }
  }

  /** In particular secrets without a delimiter that occur in no marker are all scrubbed clean. */
  lemma UnmarkedIsSound(tag: Tag, live: seq<string>)
    requires "" !in live && forall q | q in live :: Unmarked(tag, live, q)
    ensures Sound(tag, live)
  {
    forall k, q | 0 <= k < |live| && q in live
      ensures !Contains(ReplaceEach(tag, live[k + 1..], Marker(tag, live[k])), q)
    {
      if Contains(ReplaceEach(tag, live[k + 1..], Marker(tag, live[k])), q) {
        ReplaceEachCleans(tag, live[k + 1..], Marker(tag, live[k]), q);
      }
    }
  }

  // ---------------------------------------------------------------- ... at any depth

  /** `t` is a string of `v`, as a value or as a member name. */
  ghost predicate Mentions(v: Json, t: string) {
    match v
    case Str(s) => t == s
    case Arr(items) => exists i | 0 <= i < |items| :: Mentions(items[i], t)
    case Obj(ms) => exists i | 0 <= i < |ms| :: ms[i].key == t || Mentions(ms[i].value, t)
    case _ => false
  }

  ghost predicate Clean(live: seq<string>, v: Json) {
    match v
    case Str(s) => !Dirty(live, s)
    case Arr(items) => forall i | 0 <= i < |items| :: Clean(live, items[i])
    case Obj(ms) => CleanMembers(live, ms)
    case _ => true
  }

  ghost predicate CleanMembers(live: seq<string>, ms: seq<Member>) {
    forall i | 0 <= i < |ms| :: !Dirty(live, ms[i].key) && Clean(live, ms[i].value)
  }

  /** No member is named `__proto__`, at any depth. */
  predicate NoProtoMember(v: Json) {
    match v
    case Arr(items) => forall i | 0 <= i < |items| :: NoProtoMember(items[i])
    case Obj(ms) => forall i | 0 <= i < |ms| :: ms[i].key != "__proto__" && NoProtoMember(ms[i].value)
    case _ => true
  }

  lemma AssignKeeps(live: seq<string>, out: seq<Member>, k: string, v: Json)
    requires CleanMembers(live, out) && !Dirty(live, k) && Clean(live, v)
    requires WellFormed(Obj(out)) && WellFormed(v)
    requires NoProtoMember(Obj(out)) && NoProtoMember(v)
    ensures CleanMembers(live, Assign(out, k, v))
    ensures WellFormed(Obj(Assign(out, k, v)))
    ensures NoProtoMember(Obj(Assign(out, k, v)))
  {}

  /** The scrubbed document is clean, well formed and without a `__proto__` member, whatever went in. */
  lemma {:induction false} ScrubbedIsClean(tag: Tag, live: seq<string>, v: Json)
    requires Sound(tag, live)
    ensures var r := ScrubJson(tag, live, v); Clean(live, r) && WellFormed(r) && NoProtoMember(r)
    decreases v, 1
  {
    match v
    case Str(s) => TextIsClean(tag, live, s);
    case Arr(items) =>
      forall i | 0 <= i < |items|
        ensures var r := ScrubJson(tag, live, items[i]); Clean(live, r) && WellFormed(r) && NoProtoMember(r)
      { ScrubbedIsClean(tag, live, items[i]); }
    case Obj(ms) => ScrubbedMembersAreClean(tag, live, ms);
    case _ =>
  }

  lemma {:induction false} ScrubbedMembersAreClean(tag: Tag, live: seq<string>, ms: seq<Member>)
    requires Sound(tag, live)
    ensures var r := ScrubMembers(tag, live, ms); CleanMembers(live, r) && WellFormed(Obj(r)) && NoProtoMember(Obj(r))
    decreases ms, 0
  {
    if ms == [] {
    } else {
      var m := ms[|ms| - 1];
      ScrubbedMembersAreClean(tag, live, ms[..|ms| - 1]);
      TextIsClean(tag, live, m.key);
      ScrubbedIsClean(tag, live, m.value);
      AssignKeeps(live, ScrubMembers(tag, live, ms[..|ms| - 1]), ScrubText(tag, live, m.key),
                  ScrubJson(tag, live, m.value));
    }
  }

  lemma AssignMentions(out: seq<Member>, k: string, x: Json, t: string)
    requires Mentions(Obj(Assign(out, k, x)), t)
    ensures Mentions(Obj(out), t) || t == k || Mentions(x, t)
  {
    var r := Assign(out, k, x);
    var i :| 0 <= i < |r| && (r[i].key == t || Mentions(r[i].value, t));
    assert i < |out| && r[i] != Member(k, x) ==> r[i] == out[i];
  }

  /** Every string of the scrubbed document is one of the document, scrubbed. */
  lemma {:induction false} StringsAreScrubbed(tag: Tag, live: seq<string>, v: Json, t: string) returns (s: string)
    requires "" !in live && Mentions(ScrubJson(tag, live, v), t)
    ensures Mentions(v, s) && t == ScrubText(tag, live, s)
    decreases v, 1
  {
    match v
    case Str(u) => s := u;
    case Arr(items) =>
      var i :| 0 <= i < |items| && Mentions(ScrubJson(tag, live, items[i]), t);
      s := StringsAreScrubbed(tag, live, items[i], t);
    case Obj(ms) => s := NamesAndValuesAreScrubbed(tag, live, ms, t);
  }

  lemma {:induction false} NamesAndValuesAreScrubbed(tag: Tag, live: seq<string>, ms: seq<Member>, t: string)
    returns (s: string)
    requires "" !in live && Mentions(Obj(ScrubMembers(tag, live, ms)), t)
    ensures Mentions(Obj(ms), s) && t == ScrubText(tag, live, s)
    decreases ms, 0
  {
    var n := |ms| - 1;
    var m, rest := ms[n], ms[..n];
    AssignMentions(ScrubMembers(tag, live, rest), ScrubText(tag, live, m.key), ScrubJson(tag, live, m.value), t);
    if t == ScrubText(tag, live, m.key) {
      s := m.key;
    } else if Mentions(ScrubJson(tag, live, m.value), t) {
      s := StringsAreScrubbed(tag, live, m.value, t);
    } else {
      s := NamesAndValuesAreScrubbed(tag, live, rest, t);
      var i :| 0 <= i < n && (rest[i].key == s || Mentions(rest[i].value, s));
      assert rest[i] == ms[i];
    }
  }

  lemma GoneAtAnyDepth(tag: Tag, live: seq<string>, v: Json, t: string, q: string)
    requires "" !in live && Gone(tag, live, q)
    requires Mentions(ScrubJson(tag, live, v), t) && Contains(t, q)
    ensures IsHexDigest(t) && t !in live
  {
    var s := StringsAreScrubbed(tag, live, v, t);
  }

  /**
    A live secret without a delimiter that occurs in no marker is in no string of the scrubbed
    document, at any depth, digests left alone excepted. Nothing is asked of the other secrets.
   */
  lemma NothingSurvives(tag: Tag, live: seq<string>, v: Json, t: string, q: string)
    requires "" !in live && q in live && Unmarked(tag, live, q)
    requires Mentions(ScrubJson(tag, live, v), t) && Contains(t, q)
    ensures IsHexDigest(t) && t !in live
  {
    UnmarkedGoes(tag, live, q);
    GoneAtAnyDepth(tag, live, v, t, q);
  }

  /** Nor is one that no finished marker holds, when no secret has a delimiter. */
  lemma NothingSurvivesCleanMarkers(tag: Tag, live: seq<string>, v: Json, t: string, q: string)
    requires Plain(live) && q in live && MarkersAvoid(tag, live, q)
    requires Mentions(ScrubJson(tag, live, v), t) && Contains(t, q)
    ensures IsHexDigest(t) && t !in live
  {
    AvoidedIsGone(tag, live, q);
    GoneAtAnyDepth(tag, live, v, t, q);
  }

  lemma {:induction false} CleanIsFixed(tag: Tag, live: seq<string>, v: Json)
    requires "" !in live && Clean(live, v) && WellFormed(v) && NoProtoMember(v)
    ensures ScrubJson(tag, live, v) == v
    decreases v, 1
  {
    match v
    case Str(s) => if !Exempt(live, s) { UntouchedText(tag, live, s); }
    case Arr(items) =>
      forall i | 0 <= i < |items|
        ensures ScrubJson(tag, live, items[i]) == items[i]
      { CleanIsFixed(tag, live, items[i]); }
    case Obj(ms) => CleanMembersAreFixed(tag, live, ms);
    case _ =>
  }

  lemma {:induction false} CleanMembersAreFixed(tag: Tag, live: seq<string>, ms: seq<Member>)
    requires "" !in live && CleanMembers(live, ms) && WellFormed(Obj(ms)) && NoProtoMember(Obj(ms))
    ensures ScrubMembers(tag, live, ms) == ms
    decreases ms, 0
  {
    if ms == [] {
    } else {
      var rest, m := ms[..|ms| - 1], ms[|ms| - 1];
      CleanMembersAreFixed(tag, live, rest);
      CleanIsFixed(tag, live, m.value);
      if !Exempt(live, m.key) { UntouchedText(tag, live, m.key); }
      assert m.key !in Keys(rest);
      assert ms == rest + [m];
    }
  }

  lemma {:induction false} HitsAreDirt(live: seq<string>, v: Json, path: Path)
    ensures Hits(live, v, path) == [] <==> Clean(live, v)
    decreases v, 1
  {
    match v
    case Arr(items) => ItemHitsAreDirt(live, items, path);
    case Obj(ms) => MemberHitsAreDirt(live, ms, path);
    case _ =>
  }

  lemma {:induction false} ItemHitsAreDirt(live: seq<string>, items: seq<Json>, path: Path)
    ensures HitsInItems(live, items, path) == [] <==> forall i | 0 <= i < |items| :: Clean(live, items[i])
    decreases items, 0
  {
    if items == [] {
    } else {
      var n := |items| - 1;
      ItemHitsAreDirt(live, items[..n], path);
      HitsAreDirt(live, items[n], path + [Index(n)]);
      assert forall i | 0 <= i < n :: items[..n][i] == items[i];
    }
  }

  lemma {:induction false} MemberHitsAreDirt(live: seq<string>, ms: seq<Member>, path: Path)
    ensures HitsInMembers(live, ms, path) == [] <==> CleanMembers(live, ms)
    decreases ms, 0
  {
    if ms == [] {
    } else {
      var n := |ms| - 1;
      MemberHitsAreDirt(live, ms[..n], path);
      HitsAreDirt(live, ms[n].value, path + [Name(ms[n].key)]);
      assert forall i | 0 <= i < n :: ms[..n][i] == ms[i];
    }
  }

  // ---------------------------------------------------------------- a hit changes the document

  /** How often the first delimiter occurs. */
  function Opened(s: string): nat {
    if s == "" then 0 else (if s[0] == OPENING then 1 else 0) + Opened(s[1..])
  }

  lemma {:induction false} OpenedInTwo(a: string, b: string)
    ensures Opened(a + b) == Opened(a) + Opened(b)
  {
    if a == "" {
      assert a + b == b;
    } else {
      OpenedInTwo(a[1..], b);
      assert (a + b)[1..] == a[1..] + b;
    }
  }

  lemma {:induction false} NoneOpened(s: string)
    requires OPENING !in s
    ensures Opened(s) == 0
  {
    if s == "" {
    } else {
      NoneOpened(s[1..]);
    }
  }

  /** Replacing a secret without the first delimiter by a marker loses none, and adds one on a hit. */
  lemma {:induction false} ReplacingOpens(s: string, p: string, m: string)
    requires p != "" && OPENING !in p && Opened(m) > 0
    ensures Opened(ReplaceAll(s, p, m)) >= Opened(s)
    ensures Contains(s, p) ==> Opened(ReplaceAll(s, p, m)) > Opened(s)
    decreases |s|
  {
    if |s| < |p| {
    } else if s[..|p|] == p {
      ReplacingOpens(s[|p|..], p, m);
      OpenedInTwo(m, ReplaceAll(s[|p|..], p, m));
      OpenedInTwo(p, s[|p|..]);
      NoneOpened(p);
      assert s == p + s[|p|..];
    } else {
      ReplacingOpens(s[1..], p, m);
      if Contains(s, p) { FoundLater(s, p); }
    }
  }

  lemma FoundLater(s: string, p: string)
    requires |s| >= |p| > 0 && s[..|p|] != p && Contains(s, p)
    ensures Contains(s[1..], p)
  {
    var i :| 0 <= i <= |s| && OccursAt(s, p, i);
    TailOccurs(s, 1, p, i - 1);
  }

  lemma {:induction false} EachOpens(tag: Tag, live: seq<string>, s: string)
    requires "" !in live && Avoids(live, OPENING)
    ensures Opened(ReplaceEach(tag, live, s)) >= Opened(s)
    ensures (exists k | 0 <= k < |live| :: Contains(s, live[k])) ==> Opened(ReplaceEach(tag, live, s)) > Opened(s)
  {
    if live == [] {
    } else {
      var init, p := live[..|live| - 1], live[|live| - 1];
      assert p in live && forall q | q in init :: q in live;
      EachOpens(tag, init, s);
      EachStep(tag, live, s);
      ReplacingOpens(ReplaceEach(tag, init, s), p, Marker(tag, p));
      if k :| 0 <= k < |live| && Contains(s, live[k]) {
        if exists i | 0 <= i < |init| :: Contains(s, init[i]) {
        } else {
          assert k == |init| || live[k] == init[k];
          UntouchedText(tag, init, s);
        }
      }
    }
  }

  /** A string the scrubber must touch is changed by it. */
  lemma DirtyTextChanges(tag: Tag, live: seq<string>, s: string)
    requires "" !in live && Avoids(live, OPENING) && ScrubText(tag, live, s) == s
    ensures !Dirty(live, s)
  {
    EachOpens(tag, live, s);
  }

  /** A document that scrubbing leaves as it is was clean, with no `__proto__` member. */
  lemma {:induction false} FixedIsClean(tag: Tag, live: seq<string>, v: Json)
    requires "" !in live && Avoids(live, OPENING) && ScrubJson(tag, live, v) == v
    ensures Clean(live, v) && NoProtoMember(v)
    decreases v, 1
  {
    match v
    case Str(s) => DirtyTextChanges(tag, live, s);
    case Arr(items) =>
      forall i | 0 <= i < |items|
        ensures Clean(live, items[i]) && NoProtoMember(items[i])
      {
        assert ScrubJson(tag, live, v).items[i] == ScrubJson(tag, live, items[i]);
        FixedIsClean(tag, live, items[i]);
      }
    case Obj(ms) => FixedMembersAreClean(tag, live, ms);
    case _ =>
  }

  lemma {:induction false} NoMoreMembers(tag: Tag, live: seq<string>, ms: seq<Member>)
    requires "" !in live
    ensures |ScrubMembers(tag, live, ms)| <= |ms|
  {
    if ms == [] {
    } else {
      NoMoreMembers(tag, live, ms[..|ms| - 1]);
    }
  }

  lemma {:induction false} FixedMembersAreClean(tag: Tag, live: seq<string>, ms: seq<Member>)
    requires "" !in live && Avoids(live, OPENING) && ScrubMembers(tag, live, ms) == ms
    ensures CleanMembers(live, ms) && NoProtoMember(Obj(ms))
    decreases ms, 0
  {
    if ms == [] {
    } else {
      var n := |ms| - 1;
      var rest, m := ms[..n], ms[n];
      NoMoreMembers(tag, live, rest);
      LastIsAppended(ScrubMembers(tag, live, rest), ScrubText(tag, live, m.key), ScrubJson(tag, live, m.value), ms);
      FixedMembersAreClean(tag, live, rest);
      DirtyTextChanges(tag, live, m.key);
      FixedIsClean(tag, live, m.value);
      assert forall i | 0 <= i < n :: ms[i] == rest[i];
    }
  }

  /** An assignment that makes one member more appended it. */
  lemma LastIsAppended(out: seq<Member>, k: string, x: Json, ms: seq<Member>)
    requires Assign(out, k, x) == ms && |out| < |ms|
    ensures k != "__proto__" && out == ms[..|ms| - 1] && ms[|ms| - 1] == Member(k, x)
  {}

  /**
    `redactedAt` against what happened, for secrets without the first delimiter: a non-empty
    list means the document changed; an empty one means it did not, if and only if there was
    no live secret or no member is named `__proto__` (such a member is dropped without being
    reported).
   */
  lemma RedactedAtIsExact(tag: Tag, secrets: seq<string>, v: Json)
    requires Avoids(Live(secrets), OPENING) && WellFormed(v)
    ensures Hits(Live(secrets), v, []) != [] ==> Scrubbed(tag, secrets, v) != v
    ensures Hits(Live(secrets), v, []) == [] ==>
              (Scrubbed(tag, secrets, v) == v <==> Live(secrets) == [] || NoProtoMember(v))
  {
    var live := Live(secrets);
    HitsAreDirt(live, v, []);
    if live == [] {
      NothingDirty(v);
    } else {
      if ScrubJson(tag, live, v) == v { FixedIsClean(tag, live, v); }
      if Clean(live, v) && NoProtoMember(v) { CleanIsFixed(tag, live, v); }
    }
  }

  /** A secret that is its own marker is reported, and nothing changes. */
  lemma OwnMarkerIsReported(tag: Tag, p: string)
    requires Marker(tag, p) == p
    ensures Live([p]) == [p] && Hits([p], Str(p), []) != [] && Scrubbed(tag, [p], Str(p)) == Str(p)
  {
    assert !IsSpace(p[0]);
    LoneSecret(p);
    assert OccursAt(p, [p][0], 0);
    LoneReplacement(tag, p, p);
    ReplacedWhole(p, p);
  }

  lemma LoneSecret(p: string)
    requires !Blank(p)
    ensures Live([p]) == [p]
  {
    assert [p][..0] == [] && Live([]) == [];
  }

  lemma LoneReplacement(tag: Tag, p: string, s: string)
    requires p != ""
    ensures ReplaceEach(tag, [p], s) == ReplaceAll(s, p, Marker(tag, p))
  {
    EachStep(tag, [p], s);
    assert [p][..0] == [];
  }

  /** Scrubbing again changes nothing and redacts nothing. */
  lemma SoundIsIdempotent(tag: Tag, secrets: seq<string>, v: Json)
    requires Sound(tag, Live(secrets))
    ensures var r := Scrubbed(tag, secrets, v);
            Scrubbed(tag, secrets, r) == r && (Live(secrets) == [] || Hits(Live(secrets), r, []) == [])
  {
    var live := Live(secrets);
    if live != [] {
      ScrubbedIsClean(tag, live, v);
      CleanIsFixed(tag, live, ScrubJson(tag, live, v));
      HitsAreDirt(live, ScrubJson(tag, live, v), []);
    }
  }

  ghost predicate Idempotent(tag: Tag, secrets: seq<string>) {
    forall v :: Scrubbed(tag, secrets, Scrubbed(tag, secrets, v)) == Scrubbed(tag, secrets, v)
  }

  /** For secrets without a delimiter, scrubbing twice is scrubbing once if and only if no finished marker holds one. */
  lemma ScrubIsIdempotentExactly(tag: Tag, secrets: seq<string>)
    requires Plain(Live(secrets))
    ensures Idempotent(tag, secrets) <==> MarkersClean(tag, Live(secrets))
  {
    var live := Live(secrets);
    if MarkersClean(tag, live) {
      forall v
        ensures Scrubbed(tag, secrets, Scrubbed(tag, secrets, v)) == Scrubbed(tag, secrets, v)
      { SoundIsIdempotent(tag, secrets, v); }
    } else {
      var q :| q in live && !MarkersAvoid(tag, live, q);
      var s := TextThatKeeps(tag, live, q);
      ChangesTwice(tag, secrets, s);
    }
  }

  lemma ChangesTwice(tag: Tag, secrets: seq<string>, s: string)
    requires Plain(Live(secrets)) && Dirty(Live(secrets), ScrubText(tag, Live(secrets), s))
    ensures !Idempotent(tag, secrets)
  {
    var live := Live(secrets);
    var once := ScrubText(tag, live, s);
    assert live != [] && Scrubbed(tag, secrets, Str(s)) == Str(once);
    assert Scrubbed(tag, secrets, Str(once)) == Str(ScrubText(tag, live, once));
    if ScrubText(tag, live, once) == once { DirtyTextChanges(tag, live, once); }
  }

  lemma {:induction false} NothingDirty(v: Json)
    ensures Clean([], v)
  {
    match v
    case Arr(items) =>
      forall i | 0 <= i < |items|
        ensures Clean([], items[i])
      { NothingDirty(items[i]); }
    case Obj(ms) =>
      forall i | 0 <= i < |ms|
        ensures Clean([], ms[i].value)
      { NothingDirty(ms[i].value); }
    case _ =>
  }

  // ---------------------------------------------------------------- secrets that hold a delimiter

  /** A secret inside the marker's fixed text is not scrubbed clean. */
  lemma MarkerTextLeaks(tag: Tag)
    ensures !MarkersClean(tag, ["redacted"]) && Dirty(["redacted"], ScrubText(tag, ["redacted"], "redacted"))
  {
    var live := ["redacted"];
    assert live[0 + 1..] == [] && ReplaceEach(tag, [], Marker(tag, live[0])) == Marker(tag, live[0]);
    assert OccursAt(Marker(tag, live[0]), "redacted", 1);
    assert "redacted" in live && !MarkersAvoid(tag, live, "redacted");
    UncleanMarkerLeaks(tag, live, 0, "redacted");
  }

  /** Of the live secrets only the one at `k`, if any, occurs in the text. */
  predicate OnlyOneIn(live: seq<string>, k: nat, s: string) {
    forall i | 0 <= i < |live| && i != k :: !Contains(s, live[i])
  }

  lemma ReplacedOnce(tag: Tag, live: seq<string>, k: nat, s: string, r: string)
    requires "" !in live && k < |live| && ReplaceAll(s, live[k], Marker(tag, live[k])) == r
    requires OnlyOneIn(live, k, s) && OnlyOneIn(live, k, r)
    ensures ReplaceEach(tag, live, s) == r
  {
    EachComposes(tag, live, k, s);
    UntouchedText(tag, live[..k], s);
    EachFirst(tag, live, k, s);
    UntouchedText(tag, live[k + 1..], r);
  }

  /**
    A secret that ends in the marker's first character is put together by its own marker,
    where no other secret occurs in the text before or after.
   */
  lemma OpeningLeaks(tag: Tag, live: seq<string>, k: nat, u: string)
    requires "" !in live && k < |live| && live[k] == u + [OPENING] && u != "" && OPENING !in u
    requires OnlyOneIn(live, k, u + live[k]) && OnlyOneIn(live, k, u + Marker(tag, live[k]))
    ensures Contains(ScrubText(tag, live, u + live[k]), live[k]) && !Gone(tag, live, live[k])
  {
    var p := live[k];
    var s, r := u + p, u + Marker(tag, p);
    ReplaceAfter(u, p, Marker(tag, p));
    ReplacedOnce(tag, live, k, s, r);
    DelimiterNoDigest(s, |s| - 1);
    DelimiterNoDigest(r, |u|);
    assert r[0..0 + |p|] == p;
    assert OccursAt(r, p, 0);
  }

  lemma {:induction false} ReplaceAfter(u: string, p: string, m: string)
    requires p != "" && p[|p| - 1] !in u && p[|p| - 1] !in p[..|p| - 1]
    ensures ReplaceAll(u + p, p, m) == u + m
  {
    if u == "" {
      assert u + p == p && u + m == m;
      ReplacedWhole(p, m);
    } else {
      var s, last := u + p, |p| - 1;
      assert s[last] != p[last] by {
        if last < |u| { assert s[last] == u[last]; } else { assert s[last] == p[..last][last - |u|]; }
      }
      assert s[..|p|][last] == s[last];
      assert s[1..] == u[1..] + p;
      ReplaceAfter(u[1..], p, m);
      assert u + m == [u[0]] + (u[1..] + m);
    }
  }

  lemma AbsentWithoutFirst(s: string, p: string)
    requires p != "" && p[0] !in s
    ensures !Contains(s, p)
  {
    forall i | 0 <= i <= |s|
      ensures !OccursAt(s, p, i)
    { assert i + |p| <= |s| ==> s[i] == s[i..i + |p|][0]; }
  }

  /** One that starts with the marker's last character is put together after its own marker, likewise. */
  lemma ClosingLeaks(tag: Tag, live: seq<string>, k: nat, u: string)
    requires "" !in live && k < |live| && live[k] == [CLOSING] + u && u != "" && CLOSING !in u
    requires OnlyOneIn(live, k, live[k] + u) && OnlyOneIn(live, k, Marker(tag, live[k]) + u)
    ensures Contains(ScrubText(tag, live, live[k] + u), live[k]) && !Gone(tag, live, live[k])
  {
    var p, m := live[k], Marker(tag, live[k]);
    var s, r := p + u, m + u;
    ReplaceBefore(p, u, m);
    ReplacedOnce(tag, live, k, s, r);
    DelimiterNoDigest(s, 0);
    DelimiterNoDigest(r, 0);
    assert r[|m| - 1..|m| - 1 + |p|] == p;
    assert OccursAt(r, p, |m| - 1);
  }

  lemma ReplaceBefore(p: string, u: string, m: string)
    requires p != "" && p[0] !in u
    ensures ReplaceAll(p + u, p, m) == m + u
  {
    assert (p + u)[..|p|] == p && (p + u)[|p|..] == u;
    AbsentWithoutFirst(u, p);
    NothingToReplace(u, p, m);
  }

  /** A secret that ends in the marker's first character can be put together by another secret's marker. */
  lemma DelimiterLeaks(tag: Tag)
    ensures var live := ["x" + [OPENING], "y"]; Dirty(live, ScrubText(tag, live, "xy"))
  {
    var p := "x" + [OPENING];
    var live := [p, "y"];
    var m := Marker(tag, "y");
    assert live[..|live| - 1] == [p] && [p][..|[p]| - 1] == [];
    assert !OccursAt("xy", p, 0) by { assert "xy"[0..2][1] != p[1]; }
    assert ReplaceEach(tag, [p], "xy") == "xy";
    assert OccursAt("xy", "y", 1);
    assert "xy"[..1] != "y" && "xy"[1..] == "y";
    ReplacedWhole("y", m);
    var r := "x" + m;
    assert ScrubText(tag, live, "xy") == r;
    assert OccursAt(r, live[0], 0);
    DelimiterNoDigest(r, 1);
  }
}
