/**
 The squash-merge expander (scripts/release/semantic-release-squash-expander.cjs): a squash commit
 whose body lists commits as "* " bullets is replaced by one virtual commit for each bullet.
 */
module Squash {
  import opened Wrappers

  /** What a multi-line "^" accepts before it: the four ECMAScript line terminators. */
  predicate IsLineTerminator(c: char) {
    c == '\n' || c == '\r' || c == '\U{2028}' || c == '\U{2029}'
  }

  /** What "\s" matches in ECMAScript. */
  predicate IsSpace(c: char) {
    || IsLineTerminator(c) || c == '\t' || c == '\U{0B}' || c == '\U{0C}' || c == ' ' || c == '\U{A0}'
    || c == '\U{1680}' || '\U{2000}' <= c <= '\U{200A}' || c == '\U{202F}' || c == '\U{205F}' || c == '\U{3000}'
    || c == '\U{FEFF}'
  }

  predicate IsLower(c: char) {
    'a' <= c <= 'z'
  }

  /** The characters allowed in a scope: "\w", "*", ",", "!" and "-". */
  predicate IsScopeChar(c: char) {
    IsLower(c) || 'A' <= c <= 'Z' || '0' <= c <= '9' || c in "_*,!-"
  }

  /** A line of `s` begins with "* " at position i. */
  predicate IsMarker(s: string, i: nat) {
    i + 2 <= |s| && s[i] == '*' && s[i + 1] == ' ' && (i == 0 || IsLineTerminator(s[i - 1]))
  }

  /** body.split(/^\* /m), scanning at q with the current part starting at p. */
  function SplitFrom(s: string, p: nat, q: nat): seq<string>
    requires p <= q <= |s|
    decreases |s| - q
  {
    if q == |s| then [s[p..]]
    else if IsMarker(s, q) then [s[p..q]] + SplitFrom(s, q + 2, q + 2)
    else SplitFrom(s, p, q + 1)
  }

  function Split(s: string): seq<string> {
    SplitFrom(s, 0, 0)
  }

  /** The first position at or after i whose character fails p. */
  function RunEnd(s: string, i: nat, p: char -> bool): (end: nat)
    requires i <= |s|
    ensures i <= end <= |s|
    ensures forall k :: i <= k < end ==> p(s[k])
    ensures end < |s| ==> !p(s[end])
    decreases |s| - i
  {
    if i < |s| && p(s[i]) then RunEnd(s, i + 1, p) else i
  }

  /** replace(/\s+$/, "") */
  function TrimEnd(s: string, p: char -> bool): string {
    if |s| > 0 && p(s[|s| - 1]) then TrimEnd(s[..|s| - 1], p) else s
  }

  predicate IsNewline(c: char) {
    c == '\n'
  }

  predicate NotNewline(c: char) {
    c != '\n'
  }

  /** The subject test /^[a-z]+(?:\([\w*,!-]+\))?!?:\s+\S/, matched left to right. */
  predicate LooksConventional(b: string) {
    var i := RunEnd(b, 0, IsLower);
    i > 0
    && (if i < |b| && b[i] == '(' then
          var j := RunEnd(b, i + 1, IsScopeChar);
          j > i + 1 && j < |b| && b[j] == ')' && TailMatches(b, j + 1)
        else TailMatches(b, i))
  }

  /** The "!?:\s+\S" part. */
  predicate TailMatches(b: string, i: nat)
    requires i <= |b|
  {
    var k := if i < |b| && b[i] == '!' then i + 1 else i;
    k < |b| && b[k] == ':' && RunEnd(b, k + 1, IsSpace) > k + 1 && RunEnd(b, k + 1, IsSpace) < |b|
  }

  function Map<A, B>(f: A -> B, s: seq<A>): (r: seq<B>)
    ensures |r| == |s| && forall k :: 0 <= k < |s| ==> r[k] == f(s[k])
  {
    if |s| == 0 then [] else [f(s[0])] + Map(f, s[1..])
  }

  function TrimPart(part: string): string {
    TrimEnd(part, IsSpace)
  }

  /** What follows the first line of a message; an absent message is the empty one. */
  function BodyOf(message: string): Option<string> {
    var n := RunEnd(message, 0, NotNewline);
    if n == |message| then None else Some(message[n + 1..])
  }

  /** splitSquashBullets */
  function SplitSquashBullets(message: string): Option<seq<string>> {
    match BodyOf(message)
    case None => None
    case Some(body) =>
      var parts := Split(body);
      if |parts| < 2 then None
      else
        var bullets := Map(TrimPart, parts[1..]);
        if exists b :: b in bullets && LooksConventional(b) then Some(bullets) else None
  }

  /** A commit; `rest` is everything else it carries, which expansion copies. */
  datatype Commit<T> = Commit(message: string, header: string, subject: string, body: string, rest: T)

  function SubjectOf(bullet: string): string {
    bullet[..RunEnd(bullet, 0, NotNewline)]
  }

  function VirtualBody(bullet: string): string {
    var n := RunEnd(bullet, 0, NotNewline);
    if n == |bullet| then ""
    else
      var after := bullet[n + 1..];
      TrimEnd(after[RunEnd(after, 0, IsNewline)..], IsNewline)
  }

  function VirtualMessage(bullet: string): string {
    if VirtualBody(bullet) == "" then SubjectOf(bullet) else SubjectOf(bullet) + "\n\n" + VirtualBody(bullet)
  }

  /** The virtual commit of one bullet. */
  function VirtualCommit<T>(c: Commit<T>, bullet: string): Commit<T> {
    Commit(VirtualMessage(bullet), SubjectOf(bullet), SubjectOf(bullet), VirtualBody(bullet), c.rest)
  }

  function ExpandOne<T>(c: Commit<T>): seq<Commit<T>> {
    match SplitSquashBullets(c.message)
    case None => [c]
    case Some(bullets) => Map(b => VirtualCommit(c, b), bullets)
  }

  function FlatMap<A, B>(f: A -> seq<B>, s: seq<A>): seq<B> {
    if |s| == 0 then [] else f(s[0]) + FlatMap(f, s[1..])
  }

  /** expandCommits */
  function ExpandCommits<T>(cs: seq<Commit<T>>): seq<Commit<T>> {
    FlatMap(ExpandOne, cs)
  }
}

module SquashTheorems {
  import opened Wrappers
  import opened Squash

  // ---- the splitter ----

  function JoinParts(parts: seq<string>): string
    requires |parts| > 0
  {
    if |parts| == 1 then parts[0] else parts[0] + "* " + JoinParts(parts[1..])
  }

  /** The positions at or after q where a line begins with a bullet, in increasing order. */
  function MarkersFrom(s: string, q: nat): seq<nat>
    requires q <= |s|
    decreases |s| - q
  {
    if q == |s| then []
    else if IsMarker(s, q) then [q] + MarkersFrom(s, q + 1)
    else MarkersFrom(s, q + 1)
  }

  function Markers(s: string): seq<nat> {
    MarkersFrom(s, 0)
  }

  lemma {:induction false} MarkersAreMarkers(s: string, q: nat, i: nat)
    requires q <= |s|
    ensures i in MarkersFrom(s, q) <==> q <= i < |s| && IsMarker(s, i)
    decreases |s| - q
  {
    if q < |s| {
      MarkersAreMarkers(s, q + 1, i);
    }
  }

  /** The positions increase from q on. */
  ghost predicate Increasing(ms: seq<nat>, q: nat) {
    |ms| == 0 || (q <= ms[0] && Increasing(ms[1..], ms[0] + 1))
  }

  lemma {:induction false} IncreasingBounds(ms: seq<nat>, q: nat, j: nat, k: nat)
    requires Increasing(ms, q) && j < k < |ms|
    ensures q <= ms[j] < ms[k]
  {
    if j > 0 {
      IncreasingBounds(ms[1..], ms[0] + 1, j - 1, k - 1);
    } else if k > 1 {
      IncreasingBounds(ms[1..], ms[0] + 1, 0, k - 1);
    }
  }

  lemma {:induction false} IncreasingWeaker(ms: seq<nat>, q: nat, r: nat)
    requires Increasing(ms, q) && r <= q
    ensures Increasing(ms, r)
  {
  }

  lemma {:induction false} MarkersIncrease(s: string, q: nat)
    requires q <= |s|
    ensures Increasing(MarkersFrom(s, q), q)
    decreases |s| - q
  {
    if q < |s| {
      MarkersIncrease(s, q + 1);
      IncreasingWeaker(MarkersFrom(s, q + 1), q + 1, q);
      assert ([q] + MarkersFrom(s, q + 1))[1..] == MarkersFrom(s, q + 1);
    }
  }

  /** The markers are exactly the positions where a line begins with a bullet, in increasing order. */
  lemma MarkersAreExact(s: string)
    ensures var ms := Markers(s);
            && (forall i :: i in ms <==> 0 <= i < |s| && IsMarker(s, i))
            && (forall j, k :: 0 <= j < k < |ms| ==> ms[j] < ms[k])
  {
    MarkersIncrease(s, 0);
    forall j: nat, k: nat | j < k < |Markers(s)|
      ensures Markers(s)[j] < Markers(s)[k]
    {
      IncreasingBounds(Markers(s), 0, j, k);
    }
    forall i: nat
      ensures i in Markers(s) <==> 0 <= i < |s| && IsMarker(s, i)
    {
      MarkersAreMarkers(s, 0, i);
    }
  }

  /** A bullet begins at its marker: the next one cannot begin before its two characters are past. */
  lemma MarkerSkips(s: string, q: nat)
    requires IsMarker(s, q)
    ensures MarkersFrom(s, q) == [q] + MarkersFrom(s, q + 2)
  {
    assert !IsMarker(s, q + 1);
    assert MarkersFrom(s, q + 1) == MarkersFrom(s, q + 2);
  }

  /** Rejoining the parts with "* " gives the text back. */
  lemma {:induction false} SplitRejoins(s: string, p: nat, q: nat)
    requires p <= q <= |s|
    ensures |SplitFrom(s, p, q)| > 0 && JoinParts(SplitFrom(s, p, q)) == s[p..]
    decreases |s| - q
  {
    if q < |s| {
      if IsMarker(s, q) {
        SplitRejoins(s, q + 2, q + 2);
        assert SplitFrom(s, p, q)[1..] == SplitFrom(s, q + 2, q + 2);
        assert s[q..q + 2] == "* ";
        assert s[p..q] + s[q..q + 2] + s[q + 2..] == s[p..];
      } else {
        SplitRejoins(s, p, q + 1);
      }
    }
  }

  /** The stretches of `s` from p on between the markers `ms`. */
  function CutAt(s: string, p: nat, ms: seq<nat>): seq<string>
    requires p <= |s| && CutsFit(s, p, ms)
    decreases |ms|
  {
    if |ms| == 0 then [s[p..]] else [s[p..ms[0]]] + CutAt(s, ms[0] + 2, ms[1..])
  }

  /** The markers are in order and do not overlap. */
  predicate CutsFit(s: string, p: nat, ms: seq<nat>)
    decreases |ms|
  {
    |ms| == 0 || (p <= ms[0] && ms[0] + 2 <= |s| && CutsFit(s, ms[0] + 2, ms[1..]))
  }

  lemma CutOnce(s: string, p: nat, q: nat, ms: seq<nat>)
    requires p <= q && q + 2 <= |s| && CutsFit(s, q + 2, ms)
    ensures CutsFit(s, p, [q] + ms)
    ensures CutAt(s, p, [q] + ms) == [s[p..q]] + CutAt(s, q + 2, ms)
  {
    assert ([q] + ms)[1..] == ms;
  }

  lemma {:induction false} SplitIsCut(s: string, p: nat, q: nat)
    requires p <= q <= |s|
    ensures CutsFit(s, p, MarkersFrom(s, q))
    ensures SplitFrom(s, p, q) == CutAt(s, p, MarkersFrom(s, q))
    decreases |s| - q
  {
    if q < |s| {
      if IsMarker(s, q) {
        SplitIsCut(s, q + 2, q + 2);
        MarkerSkips(s, q);
        CutOnce(s, p, q, MarkersFrom(s, q + 2));
      } else {
        SplitIsCut(s, p, q + 1);
      }
    }
  }

  /** Where stretch k begins and ends. */
  function CutStart(p: nat, ms: seq<nat>, k: nat): nat
    requires k <= |ms|
  {
    if k == 0 then p else ms[k - 1] + 2
  }

  function CutEnd(s: string, ms: seq<nat>, k: nat): nat
    requires k <= |ms|
  {
    if k == |ms| then |s| else ms[k]
  }

  lemma {:induction false} CutIsSlice(s: string, p: nat, ms: seq<nat>, k: nat)
    requires p <= |s| && CutsFit(s, p, ms) && k <= |ms|
    ensures |CutAt(s, p, ms)| == |ms| + 1
    ensures p <= CutStart(p, ms, k) <= CutEnd(s, ms, k) <= |s|
    ensures CutAt(s, p, ms)[k] == s[CutStart(p, ms, k)..CutEnd(s, ms, k)]
    decreases |ms|
  {
    if |ms| > 0 {
      CutIsSlice(s, ms[0] + 2, ms[1..], if k == 0 then 0 else k - 1);
    }
  }

  /** Part k of the split is the stretch between two markers. */
  lemma PartIsSlice(s: string, k: nat)
    requires k <= |Markers(s)|
    ensures |Split(s)| == |Markers(s)| + 1
    ensures CutStart(0, Markers(s), k) <= CutEnd(s, Markers(s), k) <= |s|
    ensures Split(s)[k] == s[CutStart(0, Markers(s), k)..CutEnd(s, Markers(s), k)]
  {
    SplitIsCut(s, 0, 0);
    CutIsSlice(s, 0, Markers(s), k);
  }

  lemma SplitLength(s: string)
    ensures |Split(s)| == |Markers(s)| + 1
  {
    PartIsSlice(s, 0);
  }

  /** A line that begins with a bullet inside a stretch does so in the whole text. */
  lemma SliceMarker(s: string, lo: nat, hi: nat, i: nat)
    requires lo <= hi <= |s|
    ensures IsMarker(s[lo..hi], i) && (i > 0 || lo == 0 || IsLineTerminator(s[lo - 1])) ==>
              IsMarker(s, lo + i) && lo + i + 2 <= hi
  {
    assert forall j :: 0 <= j < hi - lo ==> s[lo..hi][j] == s[lo + j];
  }

  /** Between the two markers of a part there is no third. */
  lemma NoMarkerBetween(s: string, k: nat, i: nat)
    requires k <= |Markers(s)| && CutStart(0, Markers(s), k) < i < CutEnd(s, Markers(s), k)
    ensures !IsMarker(s, i)
  {
    MarkersAreExact(s);
    var ms := Markers(s);
    forall j | 0 <= j < |ms|
      ensures ms[j] != i
    {
      assert j < k - 1 ==> ms[j] < ms[k - 1];
      assert j > k ==> ms[k] < ms[j];
    }
  }

  /** Inside a part no line begins with a bullet; only the part itself may look as if it did. */
  lemma PartHasNoMarker(s: string, k: nat, i: nat)
    requires k <= |Markers(s)| && i > 0
    ensures |Split(s)| == |Markers(s)| + 1 && !IsMarker(Split(s)[k], i)
  {
    PartIsSlice(s, k);
    var lo, hi := CutStart(0, Markers(s), k), CutEnd(s, Markers(s), k);
    SliceMarker(s, lo, hi, i);
    if lo + i < hi {
      NoMarkerBetween(s, k, lo + i);
    }
  }

  /**
   A commit that is expanded yields one commit for each line of its body that begins with "* ", in
   order: commit k is made from the text between marker k and the next.  The preamble and the parts
   rejoined with "* " are the body.
   */
  lemma ExpansionFollowsMarkers<T>(c: Commit<T>)
    requires SplitSquashBullets(c.message).Some?
    ensures BodyOf(c.message).Some?
    ensures var body := BodyOf(c.message).value;
            var ms, parts := Markers(body), Split(body);
            && (forall i :: i in ms <==> 0 <= i < |body| && IsMarker(body, i))
            && (forall j, k :: 0 <= j < k < |ms| ==> ms[j] < ms[k])
            && |parts| == |ms| + 1 && JoinParts(parts) == body
            && |ExpandOne(c)| == |ms|
            && forall k :: 0 <= k < |ms| ==> FromMarker(c, body, ms, k)
  {
    var body := BodyOf(c.message).value;
    var ms, parts := Markers(body), Split(body);
    MarkersAreExact(body);
    SplitRejoins(body, 0, 0);
    SplitLength(body);
    assert body[0..] == body;
    ExpandedFrom(c, 0);
    forall k | 0 <= k < |ms|
      ensures FromMarker(c, body, ms, k)
    {
      ExpandedFromMarker(c, k);
    }
  }

  /** Commit k of an expansion is made from the text between marker k and the next. */
  ghost predicate FromMarker<T>(c: Commit<T>, body: string, ms: seq<nat>, k: nat) {
    && k < |ms| && k < |ExpandOne(c)|
    && CutStart(0, ms, k + 1) <= CutEnd(body, ms, k + 1) <= |body|
    && ExpandOne(c)[k] == VirtualCommit(c, TrimPart(body[ms[k] + 2..CutEnd(body, ms, k + 1)]))
  }

  lemma ExpandedFromMarker<T>(c: Commit<T>, k: nat)
    requires SplitSquashBullets(c.message).Some?
    requires k < |Markers(BodyOf(c.message).value)|
    ensures FromMarker(c, BodyOf(c.message).value, Markers(BodyOf(c.message).value), k)
  {
    var body := BodyOf(c.message).value;
    PartIsSlice(body, k + 1);
    ExpandedFrom(c, k);
  }

  /** Commit k of an expansion is made from part k + 1. */
  lemma ExpandedFrom<T>(c: Commit<T>, k: nat)
    requires SplitSquashBullets(c.message).Some?
    ensures BodyOf(c.message).Some? && |ExpandOne(c)| + 1 == |Split(BodyOf(c.message).value)|
    ensures k < |ExpandOne(c)| ==>
              ExpandOne(c)[k] == VirtualCommit(c, TrimPart(Split(BodyOf(c.message).value)[k + 1]))
  {
  }

  // ---- idempotence ----

  /** What trimming the end leaves has no bullets that were not there. */
  lemma TrimmedMarker(s: string, p: char -> bool, i: nat)
    ensures IsMarker(TrimEnd(s, p), i) ==> IsMarker(s, i)
  {
    TrimExactly(s, p);
  }

  /** The body of a virtual commit has no bullet left. */
  lemma VirtualBodyHasNoMarker(bullet: string, i: nat)
    requires forall j: nat :: j > 0 ==> !IsMarker(bullet, j)
    ensures !IsMarker(VirtualBody(bullet), i)
  {
    var n := RunEnd(bullet, 0, NotNewline);
    if n < |bullet| {
      var after := bullet[n + 1..];
      var m := RunEnd(after, 0, IsNewline);
      TrimmedMarker(after[m..], IsNewline, i);
      assert bullet[n + 1 + m - 1] == '\n' by {
        assert m > 0 ==> after[m - 1] == bullet[n + 1 + m - 1];
      }
      assert after[m..] == bullet[n + 1 + m..|bullet|];
      SliceMarker(bullet, n + 1 + m, |bullet|, i);
    }
  }

  lemma {:induction false} NoMarkerNoSplit(s: string, p: nat, q: nat)
    requires p <= q <= |s| && forall i: nat :: i >= q ==> !IsMarker(s, i)
    ensures SplitFrom(s, p, q) == [s[p..]]
    decreases |s| - q
  {
    if q < |s| {
      NoMarkerNoSplit(s, p, q + 1);
    }
  }

  lemma {:induction false} RunEndIs(s: string, i: nat, p: char -> bool, end: nat)
    requires i <= end <= |s|
    requires forall k :: i <= k < end ==> p(s[k])
    requires end < |s| ==> !p(s[end])
    ensures RunEnd(s, i, p) == end
    decreases |s| - i
  {
    if i < end {
      RunEndIs(s, i + 1, p, end);
    }
  }

  lemma MarkerAfterNewline(body: string, i: nat)
    requires forall j: nat :: !IsMarker(body, j)
    ensures !IsMarker("\n" + body, i)
  {
    var rest := "\n" + body;
    assert rest[1..|rest|] == body;
    assert forall j :: 1 <= j < |rest| ==> rest[j] == body[j - 1];
    if i > 0 {
      assert !IsMarker(body, i - 1);
    }
  }

  /** A virtual message is not split again. */
  lemma VirtualMessageIsFinal(bullet: string)
    requires forall j: nat :: j > 0 ==> !IsMarker(bullet, j)
    ensures SplitSquashBullets(VirtualMessage(bullet)) == None
  {
    var subject, body, message := SubjectOf(bullet), VirtualBody(bullet), VirtualMessage(bullet);
    RunEndIs(message, 0, NotNewline, |subject|);
    if body != "" {
      var rest := message[|subject| + 1..];
      assert rest == "\n" + body;
      forall i: nat
        ensures !IsMarker(rest, i)
      {
        forall j: nat
          ensures !IsMarker(body, j)
        {
          VirtualBodyHasNoMarker(bullet, j);
        }
        MarkerAfterNewline(body, i);
      }
      NoMarkerNoSplit(rest, 0, 0);
    }
  }

  lemma ExpandedIsFinal<T>(c: Commit<T>, k: nat)
    requires k < |ExpandOne(c)|
    ensures SplitSquashBullets(ExpandOne(c)[k].message) == None
  {
    if SplitSquashBullets(c.message).Some? {
      ExpandedFrom(c, k);
      var body := BodyOf(c.message).value;
      SplitLength(body);
      var part := Split(body)[k + 1];
      forall j: nat | j > 0
        ensures !IsMarker(TrimPart(part), j)
      {
        PartHasNoMarker(body, k + 1, j);
        TrimmedMarker(part, IsSpace, j);
      }
      VirtualMessageIsFinal(TrimPart(part));
    }
  }

  lemma {:induction false} FlatMapFixed<A>(f: A -> seq<A>, s: seq<A>)
    requires forall a :: a in s ==> f(a) == [a]
    ensures FlatMap(f, s) == s
  {
    if |s| > 0 {
      FlatMapFixed(f, s[1..]);
    }
  }

  lemma {:induction false} FlatMapMember<A, B>(f: A -> seq<B>, s: seq<A>, b: B)
    requires b in FlatMap(f, s)
    ensures exists a :: a in s && b in f(a)
  {
    if b !in f(s[0]) {
      FlatMapMember(f, s[1..], b);
    }
  }

  lemma Assoc<B>(a: seq<B>, b: seq<B>, c: seq<B>)
    ensures a + b + c == a + (b + c)
  {
  }

  lemma {:induction false} FlatMapDistributes<A, B>(f: A -> seq<B>, s: seq<A>, t: seq<A>)
    ensures FlatMap(f, s + t) == FlatMap(f, s) + FlatMap(f, t)
  {
    if |s| == 0 {
      assert s + t == t;
    } else {
      FlatMapDistributes(f, s[1..], t);
      assert (s + t)[1..] == s[1..] + t && (s + t)[0] == s[0];
      Assoc(f(s[0]), FlatMap(f, s[1..]), FlatMap(f, t));
    }
  }

  lemma ExpandedCommitIsFixed<T>(cs: seq<Commit<T>>, c: Commit<T>)
    requires c in ExpandCommits(cs)
    ensures ExpandOne(c) == [c]
  {
    FlatMapMember(ExpandOne, cs, c);
    var origin :| origin in cs && c in ExpandOne(origin);
    var k :| 0 <= k < |ExpandOne(origin)| && ExpandOne(origin)[k] == c;
    ExpandedIsFinal(origin, k);
  }

  /** Expanding twice is expanding once, on every list of commits. */
  lemma ExpansionIsIdempotent<T>(cs: seq<Commit<T>>)
    ensures ExpandCommits(ExpandCommits(cs)) == ExpandCommits(cs)
  {
    forall c | c in ExpandCommits(cs)
      ensures ExpandOne(c) == [c]
    {
      ExpandedCommitIsFixed(cs, c);
    }
    FlatMapFixed(ExpandOne, ExpandCommits(cs));
  }

  /** Commits are expanded one by one and stay in order. */
  lemma ExpansionDistributes<T>(a: seq<Commit<T>>, b: seq<Commit<T>>)
    ensures ExpandCommits(a + b) == ExpandCommits(a) + ExpandCommits(b)
  {
    FlatMapDistributes(ExpandOne, a, b);
  }

  // ---- no text is lost ----

  ghost predicate All(s: string, p: char -> bool) {
    forall k :: 0 <= k < |s| ==> p(s[k])
  }

  /** Trimming takes off a tail of such characters, and all of it. */
  lemma {:induction false} TrimExactly(s: string, p: char -> bool)
    ensures TrimEnd(s, p) <= s
    ensures All(s[|TrimEnd(s, p)|..], p)
    ensures |TrimEnd(s, p)| > 0 ==> !p(TrimEnd(s, p)[|TrimEnd(s, p)| - 1])
  {
    if |s| > 0 && p(s[|s| - 1]) {
      TrimExactly(s[..|s| - 1], p);
    }
  }

  /**
   A bullet is the subject and body of its virtual commit with nothing but newlines around the body;
   the subject is one line, and the body neither begins nor ends with a newline.
   */
  lemma BulletIsSubjectAndBody(bullet: string) returns (gap: string, tail: string)
    ensures bullet == SubjectOf(bullet) + gap + VirtualBody(bullet) + tail
    ensures All(SubjectOf(bullet), NotNewline) && All(gap, IsNewline) && All(tail, IsNewline)
    ensures var body := VirtualBody(bullet);
            |body| > 0 ==> NotNewline(body[0]) && NotNewline(body[|body| - 1]) && |gap| > 0
  {
    var n := RunEnd(bullet, 0, NotNewline);
    if n == |bullet| {
      return "", "";
    }
    var after := bullet[n + 1..];
    var m, body;
    m, body, tail := AfterSubject(after);
    gap := bullet[n..n + 1] + after[..m];
    assert All(bullet[n..n + 1], IsNewline);
    AllConcat(bullet[n..n + 1], after[..m], IsNewline);
    assert VirtualBody(bullet) == body;
    Reassemble(bullet, n, m, body, tail);
  }

  lemma AllConcat(a: string, b: string, p: char -> bool)
    requires All(a, p) && All(b, p)
    ensures All(a + b, p)
  {
  }

  lemma Reassemble(s: string, n: nat, m: nat, body: string, tail: string)
    requires n < |s| && m <= |s| - n - 1 && s[n + 1..][m..] == body + tail
    ensures s == s[..n] + (s[n..n + 1] + s[n + 1..][..m]) + body + tail
  {
    var after := s[n + 1..];
    assert s == s[..n] + (s[n..n + 1] + after);
    assert after == after[..m] + (body + tail);
    Flatten(s[..n], s[n..n + 1], after[..m], body, tail);
  }

  lemma Flatten(a: string, b: string, c: string, d: string, e: string)
    ensures a + (b + (c + (d + e))) == a + (b + c) + d + e
  {
    Assoc(a + (b + c), d, e);
    Assoc(b, c, d + e);
    Assoc(a, b + c, d + e);
  }

  lemma AfterSubject(after: string) returns (m: nat, body: string, tail: string)
    ensures m == RunEnd(after, 0, IsNewline) && body == TrimEnd(after[m..], IsNewline)
    ensures after[m..] == body + tail && All(after[..m], IsNewline) && All(tail, IsNewline)
    ensures |body| > 0 ==> NotNewline(body[0]) && NotNewline(body[|body| - 1])
  {
    m := RunEnd(after, 0, IsNewline);
    var rest := after[m..];
    TrimExactly(rest, IsNewline);
    body := TrimEnd(rest, IsNewline);
    tail := rest[|body|..];
    assert |body| > 0 ==> body[0] == rest[0] == after[m];
  }

  // ---- the subject test ----

  /** Scope characters in parentheses. */
  ghost predicate IsScope(scope: string) {
    && |scope| > 2 && scope[0] == '(' && scope[|scope| - 1] == ')'
    && All(scope[1..|scope| - 1], IsScopeChar)
  }

  /** The shape the pattern describes: type, scope in parentheses or none, "!" or none, ": ", text. */
  ghost predicate ConventionalShape(b: string, kind: string, scope: string, bang: string, gap: string, text: string) {
    && b == kind + scope + bang + ":" + gap + text
    && |kind| > 0 && All(kind, IsLower)
    && (scope == "" || IsScope(scope))
    && (bang == "" || bang == "!")
    && |gap| > 0 && All(gap, IsSpace)
    && |text| > 0 && !IsSpace(text[0])
  }

  ghost predicate ConventionalTail(b: string, i: nat, bang: string, gap: string, text: string)
    requires i <= |b|
  {
    && b[i..] == bang + ":" + gap + text
    && (bang == "" || bang == "!") && |gap| > 0 && All(gap, IsSpace) && |text| > 0 && !IsSpace(text[0])
  }

  lemma MatchHasTail(b: string, i: nat) returns (bang: string, gap: string, text: string)
    requires i <= |b| && TailMatches(b, i)
    ensures ConventionalTail(b, i, bang, gap, text)
  {
    var k := if b[i] == '!' then i + 1 else i;
    var m := RunEnd(b, k + 1, IsSpace);
    bang, gap, text := b[i..k], b[k + 1..m], b[m..];
    assert b[i..] == b[i..k] + [b[k]] + b[k + 1..m] + b[m..];
  }

  lemma TailHasMatch(b: string, i: nat, bang: string, gap: string, text: string)
    requires i <= |b| && ConventionalTail(b, i, bang, gap, text)
    ensures TailMatches(b, i)
  {
    var t := b[i..];
    assert forall j :: 0 <= j < |t| ==> b[i + j] == t[j];
    var k := i + |bang|;
    assert b[k] == t[|bang|] == ':';
    assert forall j :: 0 <= j < |gap| ==> b[k + 1 + j] == t[|bang| + 1 + j] == gap[j];
    assert b[k + 1 + |gap|] == t[|bang| + 1 + |gap|] == text[0];
    RunEndIs(b, k + 1, IsSpace, k + 1 + |gap|);
  }

  /** Where the type and the scope end, when the match gets that far. */
  function HeadEnd(b: string): Option<nat> {
    var i := RunEnd(b, 0, IsLower);
    if i == 0 then None
    else if i < |b| && b[i] == '(' then
      var j := RunEnd(b, i + 1, IsScopeChar);
      if j > i + 1 && j < |b| && b[j] == ')' then Some(j + 1) else None
    else Some(i)
  }

  lemma HeadThenTail(b: string)
    ensures LooksConventional(b) <==> HeadEnd(b).Some? && HeadEnd(b).value <= |b| && TailMatches(b, HeadEnd(b).value)
  {
  }

  ghost predicate HeadShape(b: string, e: nat, kind: string, scope: string) {
    && e <= |b| && b[..e] == kind + scope
    && |kind| > 0 && All(kind, IsLower)
    && (scope == "" || IsScope(scope))
  }

  lemma ScopeIsScope(b: string, i: nat, e: nat)
    requires i + 2 < e <= |b| && b[i] == '(' && b[e - 1] == ')'
    requires forall k :: i < k < e - 1 ==> IsScopeChar(b[k])
    ensures IsScope(b[i..e])
  {
    var scope := b[i..e];
    var inner := scope[1..|scope| - 1];
    forall k | 0 <= k < |inner|
      ensures IsScopeChar(inner[k])
    {
      assert inner[k] == scope[k + 1] == b[i + (k + 1)];
    }
  }

  lemma HeadHasShape(b: string)
    requires HeadEnd(b).Some?
    ensures exists kind, scope :: HeadShape(b, HeadEnd(b).value, kind, scope)
  {
    var i, e := RunEnd(b, 0, IsLower), HeadEnd(b).value;
    assert b[..e] == b[..i] + b[i..e];
    if i < e {
      ScopeIsScope(b, i, e);
    }
    assert HeadShape(b, e, b[..i], b[i..e]);
  }

  lemma BareHead(b: string, e: nat)
    requires 0 < e < |b| && All(b[..e], IsLower) && !IsLower(b[e]) && b[e] != '('
    ensures HeadEnd(b) == Some(e)
  {
    assert forall j :: 0 <= j < e ==> b[j] == b[..e][j];
    RunEndIs(b, 0, IsLower, e);
  }

  lemma ScopedHead(b: string, i: nat, e: nat)
    requires 0 < i < i + 2 < e <= |b| && All(b[..i], IsLower)
    requires b[i] == '(' && b[e - 1] == ')' && All(b[i + 1..e - 1], IsScopeChar)
    ensures HeadEnd(b) == Some(e)
  {
    assert forall j :: 0 <= j < i ==> b[j] == b[..i][j];
    RunEndIs(b, 0, IsLower, i);
    assert forall j :: i + 1 <= j < e - 1 ==> b[j] == b[i + 1..e - 1][j - i - 1];
    RunEndIs(b, i + 1, IsScopeChar, e - 1);
  }

  /** A head of that shape, followed by neither a letter nor a parenthesis, is where the match stops. */
  lemma ShapeIsHead(b: string, e: nat, kind: string, scope: string)
    requires HeadShape(b, e, kind, scope) && e < |b| && !IsLower(b[e]) && b[e] != '('
    ensures HeadEnd(b) == Some(e)
  {
    var i := |kind|;
    var head := b[..e];
    assert head == kind + scope && head[..i] == kind && head[i..] == scope && b[..i] == kind;
    if scope == "" {
      BareHead(b, e);
    } else {
      assert b[i + 1..e - 1] == scope[1..|scope| - 1];
      ScopedHead(b, i, e);
    }
  }

  lemma JoinShape(b: string, e: nat, kind: string, scope: string, bang: string, gap: string, text: string)
    requires HeadShape(b, e, kind, scope) && ConventionalTail(b, e, bang, gap, text)
    ensures ConventionalShape(b, kind, scope, bang, gap, text)
  {
    assert b == b[..e] + b[e..];
    assert (kind + scope) + (bang + ":" + gap + text) == kind + scope + bang + ":" + gap + text;
  }

  lemma SplitShape(b: string, kind: string, scope: string, bang: string, gap: string, text: string)
    requires ConventionalShape(b, kind, scope, bang, gap, text)
    ensures var e := |kind| + |scope|;
            && HeadShape(b, e, kind, scope) && ConventionalTail(b, e, bang, gap, text)
            && e < |b| && !IsLower(b[e]) && b[e] != '('
  {
    var e, tail := |kind| + |scope|, bang + ":" + gap + text;
    assert b == (kind + scope) + tail;
    assert b[..e] == kind + scope && b[e..] == tail;
    assert b[e] == tail[0];
  }

  lemma MatchHasShape(b: string)
    requires LooksConventional(b)
    ensures exists kind, scope, bang, gap, text :: ConventionalShape(b, kind, scope, bang, gap, text)
  {
    HeadThenTail(b);
    var e := HeadEnd(b).value;
    HeadHasShape(b);
    var kind, scope :| HeadShape(b, e, kind, scope);
    var bang, gap, text := MatchHasTail(b, e);
    JoinShape(b, e, kind, scope, bang, gap, text);
  }

  lemma ShapeMatches(b: string, kind: string, scope: string, bang: string, gap: string, text: string)
    requires ConventionalShape(b, kind, scope, bang, gap, text)
    ensures LooksConventional(b)
  {
    var e := |kind| + |scope|;
    SplitShape(b, kind, scope, bang, gap, text);
    ShapeIsHead(b, e, kind, scope);
    TailHasMatch(b, e, bang, gap, text);
    HeadThenTail(b);
  }

  /** The left-to-right match accepts exactly the subjects of that shape: it never needs to back up. */
  lemma ConventionalExactly(b: string)
    ensures LooksConventional(b) <==>
              exists kind, scope, bang, gap, text :: ConventionalShape(b, kind, scope, bang, gap, text)
  {
    if LooksConventional(b) {
      MatchHasShape(b);
    }
    if kind, scope, bang, gap, text :| ConventionalShape(b, kind, scope, bang, gap, text) {
      ShapeMatches(b, kind, scope, bang, gap, text);
    }
  }

  // ---- which commits are expanded, and into what ----

  /** `body` is what follows the first line of the message. */
  predicate IsBodyOf(message: string, body: string) {
    var n := |message| - |body| - 1;
    n >= 0 && message[n + 1..] == body && message[n] == '\n' && forall k :: 0 <= k < n ==> message[k] != '\n'
  }

  lemma BodyOfExactly(message: string, body: string)
    ensures BodyOf(message) == Some(body) <==> IsBodyOf(message, body)
  {
    var n := RunEnd(message, 0, NotNewline);
    if IsBodyOf(message, body) {
      RunEndIs(message, 0, NotNewline, |message| - |body| - 1);
    }
  }

  /** `b` is the text less the white space that ends it. */
  predicate IsTrimmed(text: string, b: string) {
    && b <= text && (forall j :: |b| <= j < |text| ==> IsSpace(text[j]))
    && (|b| > 0 ==> !IsSpace(b[|b| - 1]))
  }

  /** `b` is the text between marker k and the next, or the end, less the white space that ends it. */
  predicate IsBulletAt(body: string, k: nat, b: string) {
    var ms := Markers(body);
    k < |ms|
    && var end := if k + 1 < |ms| then ms[k + 1] else |body|;
       ms[k] + 2 <= end <= |body| && IsTrimmed(body[ms[k] + 2..end], b)
  }

  lemma TrimUnique(text: string, a: string, b: string)
    requires IsTrimmed(text, a) && IsTrimmed(text, b)
    ensures a == b
  {
    assert a == text[..|a|] && b == text[..|b|];
  }

  lemma TrimPartTrims(text: string)
    ensures IsTrimmed(text, TrimPart(text))
  {
    TrimExactly(text, IsSpace);
    var trimmed := TrimPart(text);
    assert forall j :: |trimmed| <= j < |text| ==> text[j] == text[|trimmed|..][j - |trimmed|];
  }

  lemma TrimmedExactly(text: string, b: string)
    ensures IsTrimmed(text, b) <==> b == TrimPart(text)
  {
    TrimPartTrims(text);
    if IsTrimmed(text, b) {
      TrimUnique(text, b, TrimPart(text));
    }
  }

  /** The split's bullet k is the one at marker k. */
  lemma BulletExactly(body: string, k: nat, b: string)
    requires k < |Markers(body)|
    ensures |Split(body)| == |Markers(body)| + 1
    ensures IsBulletAt(body, k, b) <==> b == TrimPart(Split(body)[k + 1])
  {
    PartIsSlice(body, k + 1);
    TrimmedExactly(Split(body)[k + 1], b);
  }

  ghost predicate IsConventional(b: string) {
    exists kind, scope, bang, gap, text :: ConventionalShape(b, kind, scope, bang, gap, text)
  }

  /** Some bullet of the body looks like a conventional commit's subject. */
  ghost predicate HasConventionalBullet(body: string) {
    exists k: nat, b :: IsBulletAt(body, k, b) && IsConventional(b)
  }

  /** The bullets of a body, before the test of their subjects. */
  function BulletsOf(body: string): (bullets: seq<string>)
    ensures |bullets| == |Markers(body)|
  {
    SplitLength(body);
    Map(TrimPart, Split(body)[1..])
  }

  lemma SplitIsTested(message: string, body: string)
    requires IsBodyOf(message, body)
    ensures SplitSquashBullets(message) ==
            if exists b :: b in BulletsOf(body) && LooksConventional(b) then Some(BulletsOf(body)) else None
  {
    BodyOfExactly(message, body);
    SplitLength(body);
  }

  lemma BulletsExactly(body: string, k: nat, b: string)
    ensures k < |BulletsOf(body)| && b == BulletsOf(body)[k] <==> IsBulletAt(body, k, b)
  {
    if k < |Markers(body)| {
      BulletExactly(body, k, b);
      assert Split(body)[1..][k] == Split(body)[k + 1];
    }
  }

  lemma SplitExactly(message: string, body: string)
    requires IsBodyOf(message, body)
    ensures SplitSquashBullets(message) == if HasConventionalBullet(body) then Some(BulletsOf(body)) else None
  {
    SplitIsTested(message, body);
    if k: nat, b :| IsBulletAt(body, k, b) && IsConventional(b) {
      BulletsExactly(body, k, b);
      ConventionalExactly(b);
      assert b in BulletsOf(body);
    }
    if b :| b in BulletsOf(body) && LooksConventional(b) {
      ConventionalExactly(b);
      var k: nat :| k < |BulletsOf(body)| && BulletsOf(body)[k] == b;
      BulletsExactly(body, k, b);
      assert IsBulletAt(body, k, b) && IsConventional(b);
    }
  }

  /** `v` is the commit of bullet `b`: subject and body of its own, everything else copied. */
  ghost predicate IsCommitOf<T>(c: Commit<T>, b: string, v: Commit<T>) {
    && v.rest == c.rest && v.header == v.subject
    && v.subject <= b && '\n' !in v.subject
    && (if v.subject == b then v.body == ""
        else b[|v.subject|] == '\n' && IsCore(b[|v.subject| + 1..], v.body))
    && v.message == if v.body == "" then v.subject else v.subject + "\n\n" + v.body
  }

  /** `core` is the text less the newlines at its two ends. */
  ghost predicate IsCore(text: string, core: string) {
    exists gap, tail ::
      && text == gap + core + tail && All(gap, IsNewline) && All(tail, IsNewline)
      && (|core| > 0 ==> core[0] != '\n' && core[|core| - 1] != '\n')
  }

  lemma VirtualCommitExactly<T>(c: Commit<T>, b: string)
    ensures IsCommitOf(c, b, VirtualCommit(c, b))
  {
    var n := RunEnd(b, 0, NotNewline);
    if n < |b| {
      var after := b[n + 1..];
      var m, core, tail := AfterSubject(after);
      assert after == after[..m] + core + tail;
      assert IsCore(after, core);
    } else {
      assert b[..n] == b;
    }
  }

  /** `vs` are the commits of the bullets of `body`, one for each, in order. */
  ghost predicate AreCommitsOf<T>(c: Commit<T>, body: string, vs: seq<Commit<T>>) {
    && |vs| == |Markers(body)|
    && forall k :: 0 <= k < |vs| ==> IsCommitAt(c, body, k, vs[k])
  }

  ghost predicate IsCommitAt<T>(c: Commit<T>, body: string, k: nat, v: Commit<T>) {
    exists b :: IsBulletAt(body, k, b) && IsCommitOf(c, b, v)
  }

  lemma BulletsMakeCommits<T>(c: Commit<T>, body: string)
    ensures AreCommitsOf(c, body, Map(b => VirtualCommit(c, b), BulletsOf(body)))
  {
    var bullets := BulletsOf(body);
    var vs := Map(b => VirtualCommit(c, b), bullets);
    forall k: nat | k < |vs|
      ensures IsCommitAt(c, body, k, vs[k])
    {
      VirtualCommitExactly(c, bullets[k]);
      BulletsExactly(body, k, bullets[k]);
      assert IsBulletAt(body, k, bullets[k]) && IsCommitOf(c, bullets[k], vs[k]);
    }
  }

  /** A message has at most one body: all of it after the first newline. */
  lemma OneBody(message: string, a: string, b: string)
    requires IsBodyOf(message, a) && IsBodyOf(message, b)
    ensures a == b
  {
    BodyOfExactly(message, a);
    BodyOfExactly(message, b);
  }

  /**
   Every commit: it is expanded exactly if its message has a body with a bullet that looks like a
   conventional commit's subject, into one commit for each bullet, in order, made of that bullet; and
   it is otherwise left alone.
   */
  lemma ExpandsExactly<T>(c: Commit<T>)
    ensures (exists body :: IsBodyOf(c.message, body) && HasConventionalBullet(body)) ==>
              exists body :: IsBodyOf(c.message, body) && AreCommitsOf(c, body, ExpandOne(c))
    ensures (forall body :: IsBodyOf(c.message, body) ==> !HasConventionalBullet(body)) ==> ExpandOne(c) == [c]
  {
    if body :| IsBodyOf(c.message, body) {
      SplitExactly(c.message, body);
      BulletsMakeCommits(c, body);
      if other :| IsBodyOf(c.message, other) && HasConventionalBullet(other) {
        OneBody(c.message, body, other);
      }
    } else if SplitSquashBullets(c.message).Some? {
      BodyOfExactly(c.message, BodyOf(c.message).value);
      assert false;
    }
  }

  /** The character classes of the patterns, by code point. */
  lemma ClassesExactly(c: char)
    ensures var n := c as int;
            && (IsLower(c) <==> 97 <= n <= 122)
            && (IsScopeChar(c) <==>
                  || 97 <= n <= 122 || 65 <= n <= 90 || 48 <= n <= 57
                  || n == 95 || n == 42 || n == 44 || n == 33 || n == 45)
            && (IsLineTerminator(c) <==> n == 10 || n == 13 || n == 8232 || n == 8233)
            && (IsSpace(c) <==>
                  || 9 <= n <= 13 || n == 32 || n == 160 || n == 5760 || 8192 <= n <= 8202 || n == 8232 || n == 8233
                  || n == 8239 || n == 8287 || n == 12288 || n == 65279)
  {
  }
}
