/**
 * The boundary to the analysis service: how its reply text is cut down to
 * the JSON object it should contain and handed to the JSON parser, and how
 * the two lookups turn a reply into "data", "no data" or "error". The parser
 * itself is a parameter: `JSON.parse` either yields a value or throws.
 */
module Gateway {
  import opened Wrappers
  import opened Strings

  /** What a lookup ends in, as its caller sees it. */
  datatype Outcome<T> = Delivered(data: T) | NullResult | Threw

  /** What the transport gives back: a response whose text may be missing, or a thrown error. */
  datatype Transport = Responded(text: Option<string>) | Failed

  const Fence := "```"
  const OpeningFence := "```json\n"
  const ClosingFence := "\n```"

  /** The reply holds a `{` and, after the first one, a `}`: the span path is taken. */
  predicate HasSpan(text: string) {
    var start := IndexOf(text, '{');
    var end := LastIndexOf(text, '}');
    start != -1 && end != -1 && end > start
  }

  /** The two fence lines the first replacement removes. */
  predicate IsFenceLine(m: string) {
    m == OpeningFence || m == ClosingFence
  }

  /** A reply cut at its fence lines: `pieces[0] + markers[0] + pieces[1] + ...`. */
  datatype FenceSplit = FenceSplit(pieces: seq<string>, markers: seq<string>)

  /** The pieces put back together with the fence lines between them. */
  function Joined(pieces: seq<string>, markers: seq<string>): string
    requires |pieces| == |markers| + 1
    decreases |markers|
  {
    if markers == [] then pieces[0] else pieces[0] + markers[0] + Joined(pieces[1..], markers[1..])
  }

  /** The pieces put back together with nothing between them. */
  function Concat(pieces: seq<string>): string {
    if pieces == [] then [] else pieces[0] + Concat(pieces[1..])
  }

  /** Neither fence line occurs in `p`. */
  ghost predicate FenceLineFree(p: string) {
    !ContainsSub(p, OpeningFence) && !ContainsSub(p, ClosingFence)
  }

  /** `sp` cuts `s` into fence-line-free pieces joined by fence lines. */
  ghost predicate SplitsAtFenceLines(sp: FenceSplit, s: string) {
    && |sp.pieces| == |sp.markers| + 1
    && (forall i :: 0 <= i < |sp.markers| ==> IsFenceLine(sp.markers[i]))
    && (forall i :: 0 <= i < |sp.pieces| ==> FenceLineFree(sp.pieces[i]))
    && Joined(sp.pieces, sp.markers) == s
  }

  /**
   * The scan of `/```json\n|\n```/g` as a decomposition of the reply: the
   * first replacement removes the fence lines and keeps the pieces.
   */
  function SplitAtFenceLines(s: string): (sp: FenceSplit)
    ensures SplitsAtFenceLines(sp, s)
    ensures Concat(sp.pieces) == RemoveFenceLines(s)
    decreases |s|
  {
    if IsPrefix(OpeningFence, s) then
      var rest := SplitAtFenceLines(s[|OpeningFence|..]);
      SplitAfterFenceLine(s, OpeningFence, rest);
      FenceSplit([[]] + rest.pieces, [OpeningFence] + rest.markers)
    else if IsPrefix(ClosingFence, s) then
      var rest := SplitAtFenceLines(s[|ClosingFence|..]);
      SplitAfterFenceLine(s, ClosingFence, rest);
      FenceSplit([[]] + rest.pieces, [ClosingFence] + rest.markers)
    else if s == [] then
      EmptyHasNoFenceLine();
      FenceSplit([[]], [])
    else
      var rest := SplitAtFenceLines(s[1..]);
      SplitExtendsPiece(s, rest);
      ConcatExtendsFirst(s, rest.pieces);
      FenceSplit([[s[0]] + rest.pieces[0]] + rest.pieces[1..], rest.markers)
  }

  /** A fence line at the front of `s` closes an empty first piece. */
  lemma SplitAfterFenceLine(s: string, m: string, rest: FenceSplit)
    requires IsFenceLine(m) && IsPrefix(m, s) && SplitsAtFenceLines(rest, s[|m|..])
    requires Concat(rest.pieces) == RemoveFenceLines(s[|m|..])
    ensures SplitsAtFenceLines(FenceSplit([[]] + rest.pieces, [m] + rest.markers), s)
    ensures Concat([[]] + rest.pieces) == RemoveFenceLines(s)
  {
    RemoveFenceLinesAtFenceLine(s, m);
    ConcatEmptyFirst(rest.pieces);
    var sp := FenceSplit([[]] + rest.pieces, [m] + rest.markers);
    assert sp.pieces[1..] == rest.pieces && sp.markers[1..] == rest.markers;
    assert Joined(sp.pieces, sp.markers) == [] + m + s[|m|..];
    assert s == s[..|m|] + s[|m|..];
    EmptyHasNoFenceLine();
    forall i | 0 <= i < |sp.pieces|
      ensures FenceLineFree(sp.pieces[i])
    {
      if i > 0 {
        assert sp.pieces[i] == rest.pieces[i - 1];
      }
    }
  }

  /** An empty first piece adds nothing to the concatenation. */
  lemma ConcatEmptyFirst(pieces: seq<string>)
    ensures Concat([[]] + pieces) == Concat(pieces)
  {
    assert ([[]] + pieces)[1..] == pieces;
  }

  /** A character that starts no fence line joins the first piece of the rest. */
  lemma SplitExtendsPiece(s: string, rest: FenceSplit)
    requires s != [] && !IsPrefix(OpeningFence, s) && !IsPrefix(ClosingFence, s)
    requires SplitsAtFenceLines(rest, s[1..])
    ensures SplitsAtFenceLines(FenceSplit([[s[0]] + rest.pieces[0]] + rest.pieces[1..], rest.markers), s)
  {
    var piece := [s[0]] + rest.pieces[0];
    var sp := FenceSplit([piece] + rest.pieces[1..], rest.markers);
    assert sp.pieces[1..] == rest.pieces[1..];
    if rest.markers == [] {
      assert Joined(sp.pieces, sp.markers) == piece == [s[0]] + s[1..];
    } else {
      var tail := rest.markers[0] + Joined(rest.pieces[1..], rest.markers[1..]);
      assert Joined(rest.pieces, rest.markers) == rest.pieces[0] + tail;
      assert Joined(sp.pieces, sp.markers) == piece + tail == [s[0]] + (rest.pieces[0] + tail);
    }
    assert s == [s[0]] + s[1..];
    JoinedStartsWithFirst(sp.pieces, sp.markers);
    assert piece[1..] == rest.pieces[0];
    PieceStaysFree(s, piece, OpeningFence);
    PieceStaysFree(s, piece, ClosingFence);
    forall i | 0 <= i < |sp.pieces|
      ensures FenceLineFree(sp.pieces[i])
    {
      if i > 0 {
        assert sp.pieces[i] == rest.pieces[i];
      }
    }
  }

  /** Putting a kept character in front of the first piece puts it in front of what survives. */
  lemma ConcatExtendsFirst(s: string, pieces: seq<string>)
    requires s != [] && !IsPrefix(OpeningFence, s) && !IsPrefix(ClosingFence, s)
    requires pieces != [] && Concat(pieces) == RemoveFenceLines(s[1..])
    ensures Concat([[s[0]] + pieces[0]] + pieces[1..]) == RemoveFenceLines(s)
  {
    var c := s[0];
    var ps := [[c] + pieces[0]] + pieces[1..];
    assert ps[1..] == pieces[1..];
  }

  /** A fence line at the front is dropped by the first replacement. */
  lemma RemoveFenceLinesAtFenceLine(s: string, m: string)
    requires IsFenceLine(m) && IsPrefix(m, s)
    ensures RemoveFenceLines(s) == RemoveFenceLines(s[|m|..])
  {
    if m == ClosingFence {
      assert s[0] == '\n';
    }
  }

  lemma EmptyHasNoFenceLine()
    ensures FenceLineFree([])
  {
  }

  /** The joined string begins with the first piece. */
  lemma JoinedStartsWithFirst(pieces: seq<string>, markers: seq<string>)
    requires |pieces| == |markers| + 1
    ensures IsPrefix(pieces[0], Joined(pieces, markers))
  {
    if markers != [] {
      var j := Joined(pieces, markers);
      assert j == pieces[0] + (markers[0] + Joined(pieces[1..], markers[1..]));
    }
  }

  /**
   * A prefix `piece` of `s` that `s` does not start `m` with, and whose
   * tail is free of `m`, is free of `m`.
   */
  lemma PieceStaysFree(s: string, piece: string, m: string)
    requires |piece| >= 1 && IsPrefix(piece, s) && !IsPrefix(m, s) && |m| >= 1
    requires !ContainsSub(piece[1..], m)
    ensures !ContainsSub(piece, m)
  {
    if |m| <= |piece| {
      assert piece[..|m|] == s[..|m|];
    }
    ShiftOccurrence(piece, m);
  }

  /** `text.replace(/```json\n|\n```/g, "")`: scan left to right, first alternative first. */
  function RemoveFenceLines(s: string): (r: string)
    ensures |r| <= |s|
    decreases |s|
  {
    if IsPrefix(OpeningFence, s) then RemoveFenceLines(s[|OpeningFence|..])
    else if IsPrefix(ClosingFence, s) then RemoveFenceLines(s[|ClosingFence|..])
    else if s == [] then []
    else [s[0]] + RemoveFenceLines(s[1..])
  }

  /** The string with every backtick dropped. */
  function NoTicks(s: string): string {
    if s == [] then [] else (if s[0] == '`' then [] else [s[0]]) + NoTicks(s[1..])
  }

  /** `text.replace(/```/g, "")`: every character other than a backtick survives, in order. */
  function RemoveTicks(s: string): (r: string)
    ensures |r| <= |s|
    ensures NoTicks(r) == NoTicks(s)
    decreases |s|
  {
    if IsPrefix(Fence, s) then
      assert s[0] == '`' && s[1] == '`' && s[2] == '`';
      assert s[1..][1..] == s[2..] && s[2..][1..] == s[3..];
      assert NoTicks(s) == NoTicks(s[1..]) == NoTicks(s[2..]) == NoTicks(s[3..]);
      RemoveTicks(s[|Fence|..])
    else if s == [] then []
    else
      var r := [s[0]] + RemoveTicks(s[1..]);
      assert r[1..] == RemoveTicks(s[1..]) && r[0] == s[0];
      r
  }

  /** The fallback clean-up: both replacements, then `trim`. */
  function StripFences(text: string): (r: string)
    ensures var u := RemoveTicks(RemoveFenceLines(text)); var i := |u| - |TrimStart(u)|;
      && OccursAt(u, r, i)
      && (forall k :: 0 <= k < i ==> IsJsWhitespace(u[k]))
      && (forall k :: i + |r| <= k < |u| ==> IsJsWhitespace(u[k]))
    ensures !ContainsSub(r, Fence)
    ensures r == [] || (!IsJsWhitespace(r[0]) && !IsJsWhitespace(r[|r| - 1]))
  {
    var t := RemoveTicks(RemoveFenceLines(text));
    NoFenceAfterRemoveTicks(RemoveFenceLines(text));
    TrimAddsNoFence(t);
    Trim(t)
  }

  /** Trimming cuts a piece out of a string, so it cannot create a fence marker. */
  lemma TrimAddsNoFence(t: string)
    requires !ContainsSub(t, Fence)
    ensures !ContainsSub(Trim(t), Fence)
  {
    var r := Trim(t);
    if ContainsSub(r, Fence) {
      var k :| OccursAt(r, Fence, k);
      OccursWithin(t, r, |t| - |TrimStart(t)|, Fence, k);
    }
  }

  /**
   * The string `parseJSON` hands to `JSON.parse`: the inclusive slice from
   * the first `{` to the last `}` when there is such a span, otherwise the
   * reply with its code fences stripped and trimmed.
   */
  function JsonCandidate(text: string): (r: string)
    ensures HasSpan(text) ==>
      && |r| >= 2 && r[0] == '{' && r[|r| - 1] == '}'
      && OccursAt(text, r, IndexOf(text, '{'))
      && (forall k :: 0 <= k < IndexOf(text, '{') ==> text[k] != '{')
      && (forall k :: IndexOf(text, '{') + |r| <= k < |text| ==> text[k] != '}')
    ensures !HasSpan(text) ==> r == StripFences(text)
    ensures !HasSpan(text) ==>
      && !ContainsSub(r, Fence)
      && (r == [] || (!IsJsWhitespace(r[0]) && !IsJsWhitespace(r[|r| - 1])))
  {
    var start := IndexOf(text, '{');
    var end := LastIndexOf(text, '}');
    if start != -1 && end != -1 && end > start then text[start..end + 1]
    else StripFences(text)
  }

  /** `parseJSON`: a parse that throws becomes null; nothing escapes. */
  function ParseJson<T>(text: string, parse: string -> Parsed<T>): (r: Option<T>)
    ensures r.None? <==> parse(JsonCandidate(text)).SyntaxError?
    ensures r.Some? ==> parse(JsonCandidate(text)) == Value(r.value)
  {
    match parse(JsonCandidate(text))
    case Value(v) => Some(v)
    case SyntaxError => None
  }

  /** `if (!text) return null; return parseJSON(text)`, shared by both lookups. */
  function ResponseData<T>(text: Option<string>, parse: string -> Parsed<T>): (r: Option<T>)
    ensures (text == None || text == Some("")) ==> r == None
    ensures text.Some? && text.value != "" ==> r == ParseJson(text.value, parse)
  {
    if text.None? || text.value == "" then None else ParseJson(text.value, parse)
  }

  /** A lookup as its caller sees it: a transport failure is rethrown, an unusable reply is null. */
  function CallOutcome<T>(transport: Transport, parse: string -> Parsed<T>): (r: Outcome<T>)
    ensures r.Threw? <==> transport.Failed?
    ensures r.NullResult? <==> transport.Responded? && ResponseData(transport.text, parse).None?
    ensures r.Delivered? ==> transport.Responded? && ResponseData(transport.text, parse) == Some(r.data)
  {
    match transport
    case Failed => Threw
    case Responded(text) =>
      match ResponseData(text, parse)
      case Some(v) => Delivered(v)
      case None => NullResult
  }

  /** An empty or missing reply is null whatever the parser would have said: it is never parsed. */
  lemma EmptyReplyNotParsed<T>(text: Option<string>, p1: string -> Parsed<T>, p2: string -> Parsed<T>)
    requires text == None || text == Some("")
    ensures ResponseData(text, p1) == ResponseData(text, p2) == None
  {
  }

  /**
   * Span extraction, stated by positions: when `i` holds the first `{` and
   * `j` the last `}`, with `i < j`, the parser is given exactly `text[i..j+1]`.
   */
  lemma SpanIsFirstOpenToLastClose(text: string, i: int, j: int)
    requires 0 <= i < j < |text|
    requires text[i] == '{' && forall k :: 0 <= k < i ==> text[k] != '{'
    requires text[j] == '}' && forall k :: j < k < |text| ==> text[k] != '}'
    ensures HasSpan(text)
    ensures JsonCandidate(text) == text[i..j + 1]
  {
  }

  /** The fallback is taken exactly when no `{` is followed, anywhere later, by a `}`. */
  lemma FallbackExactlyWithoutBracePair(text: string)
    ensures !HasSpan(text) <==>
      forall i, j :: 0 <= i < j < |text| ==> !(text[i] == '{' && text[j] == '}')
  {
    if !HasSpan(text) {
      forall i, j | 0 <= i < j < |text| && text[i] == '{'
        ensures text[j] != '}'
      {
        assert text[i] in text;
      }
    }
  }

  /** Number of backticks a string starts with. */
  function LeadingTicks(s: string): nat {
    if |s| > 0 && s[0] == '`' then 1 + LeadingTicks(s[1..]) else 0
  }

  /** Dropping every "```" leaves a run of leading backticks of its length modulo 3. */
  lemma {:induction false} RemoveTicksLeading(s: string)
    ensures LeadingTicks(RemoveTicks(s)) == LeadingTicks(s) % 3
    decreases |s|
  {
    if IsPrefix(Fence, s) {
      LeadingTicksOfFence(s);
      RemoveTicksLeading(s[3..]);
      ModuloAfterThree(LeadingTicks(s[3..]));
    } else if s != [] {
      RemoveTicksStep(s);
      RemoveTicksLeading(s[1..]);
      if s[0] == '`' {
        FewTicksAfterFirst(s);
      }
      LeadingTicksAfterKept(s, RemoveTicks(s[1..]));
    }
  }

  lemma ModuloAfterThree(n: nat)
    ensures (3 + n) % 3 == n % 3
  {
  }

  /**
   * Keeping a first character that opens no fence: the leading run of what
   * survives is the one of the whole modulo 3, given that of the rest.
   */
  lemma LeadingTicksAfterKept(s: string, rest: string)
    requires s != [] && LeadingTicks(rest) == LeadingTicks(s[1..]) % 3
    requires s[0] == '`' ==> LeadingTicks(s[1..]) <= 1
    ensures LeadingTicks([s[0]] + rest) == LeadingTicks(s) % 3
  {
    var r := [s[0]] + rest;
    assert r[0] == s[0] && r[1..] == rest;
    if s[0] == '`' {
      var n := LeadingTicks(s[1..]);
      assert LeadingTicks(s) == 1 + n && LeadingTicks(r) == 1 + LeadingTicks(rest);
      if n == 0 {
        assert LeadingTicks(rest) == 0;
      } else {
        assert n == 1 && LeadingTicks(rest) == 1;
      }
    }
  }

  /** A first character that starts no fence is kept by the second replacement. */
  lemma RemoveTicksStep(s: string)
    requires s != [] && !IsPrefix(Fence, s)
    ensures RemoveTicks(s) == [s[0]] + RemoveTicks(s[1..])
  {
  }

  /** A fence at the front is three leading backticks, and the second replacement drops it. */
  lemma LeadingTicksOfFence(s: string)
    requires IsPrefix(Fence, s)
    ensures LeadingTicks(s) == 3 + LeadingTicks(s[3..]) && RemoveTicks(s) == RemoveTicks(s[3..])
  {
    assert s[0] == '`' && s[1] == '`' && s[2] == '`';
    assert s[1..][1..] == s[2..] && s[2..][1..] == s[3..];
    assert LeadingTicks(s[2..]) == 1 + LeadingTicks(s[3..]);
    assert LeadingTicks(s[1..]) == 1 + LeadingTicks(s[2..]);
  }

  /** After the second replacement no fence marker is left, not even one formed by the removals. */
  lemma {:induction false} NoFenceAfterRemoveTicks(s: string)
    ensures !ContainsSub(RemoveTicks(s), Fence)
    decreases |s|
  {
    if IsPrefix(Fence, s) {
      NoFenceAfterRemoveTicks(s[3..]);
    } else if s != [] {
      var rest := RemoveTicks(s[1..]);
      var r := [s[0]] + rest;
      assert RemoveTicks(s) == r;
      NoFenceAfterRemoveTicks(s[1..]);
      RemoveTicksLeading(s[1..]);
      FewTicksAfterFirst(s);
      assert !OccursAt(r, Fence, 0) by {
        if |rest| >= 2 {
          assert rest[1..][0] == rest[1];
          assert r[..3] == [s[0], rest[0], rest[1]];
        }
      }
      ShiftOccurrence(r, Fence);
      assert r[1..] == rest;
    }
  }

  /** A backtick that does not open a fence is followed by at most one more. */
  lemma FewTicksAfterFirst(s: string)
    requires s != [] && !IsPrefix(Fence, s)
    ensures s[0] == '`' ==> LeadingTicks(s[1..]) <= 1
  {
    if s[0] == '`' && |s| >= 2 && s[1] == '`' {
      assert s[1..][1..] == s[2..];
      if |s| >= 3 {
        assert s[..3] == [s[0], s[1], s[2]];
      }
    }
  }

  /** The second replacement leaves a string without backticks as it is. */
  lemma {:induction false} RemoveTicksPlain(s: string)
    requires '`' !in s
    ensures RemoveTicks(s) == s
    decreases |s|
  {
    if s != [] {
      assert !IsPrefix(Fence, s) by { assert s[0] != '`'; }
      RemoveTicksPlain(s[1..]);
    }
  }

  /**
   * The first replacement leaves a backtick-free `body` as it is and goes on
   * with what follows, provided `body` does not end in a line break that the
   * text after it could turn into a closing fence.
   */
  lemma {:induction false} RemoveFenceLinesPlainPrefix(body: string, t: string)
    requires '`' !in body
    requires body == [] || body[|body| - 1] != '\n'
    ensures RemoveFenceLines(body + t) == body + RemoveFenceLines(t)
    decreases |body|
  {
    if body != [] {
      var s := body + t;
      assert s[0] == body[0] && s[0] != '`';
      if |body| > 1 {
        assert s[1] == body[1] && body[1] != '`';
      }
      assert !IsPrefix(OpeningFence, s) && !IsPrefix(ClosingFence, s);
      RemoveFenceLinesStep(s);
      assert s[1..] == body[1..] + t;
      RemoveFenceLinesPlainPrefix(body[1..], t);
      assert body == [body[0]] + body[1..];
    } else {
      assert body + t == t;
    }
  }

  /** A first character that starts no fence line is kept, and the scan goes on after it. */
  lemma RemoveFenceLinesStep(s: string)
    requires s != [] && !IsPrefix(OpeningFence, s) && !IsPrefix(ClosingFence, s)
    ensures RemoveFenceLines(s) == [s[0]] + RemoveFenceLines(s[1..])
  {
  }

  /**
   * The purpose of the fallback: a reply that is just a ```json fenced block
   * around a backtick-free, already trimmed body is reduced to that body.
   */
  lemma FencedBlockUnwrapped(body: string)
    requires '`' !in body
    requires body == [] || (!IsJsWhitespace(body[0]) && !IsJsWhitespace(body[|body| - 1]))
    ensures StripFences(OpeningFence + body + ClosingFence) == body
  {
    var text := OpeningFence + body + ClosingFence;
    assert text[..|OpeningFence|] == OpeningFence;
    assert text[|OpeningFence|..] == body + ClosingFence;
    RemoveFenceLinesPlainPrefix(body, ClosingFence);
    assert RemoveFenceLines(ClosingFence) == [] by {
      assert ClosingFence[..|ClosingFence|] == ClosingFence;
      assert ClosingFence[|ClosingFence|..] == [];
    }
    assert body + [] == body;
    RemoveTicksPlain(body);
    TrimKeepsTrimmed(body);
  }

  /** Clean text with neither backticks nor surrounding white space passes the fallback unchanged. */
  lemma {:induction false} StripFencesKeepsCleanText(text: string)
    requires '`' !in text
    requires text == [] || (!IsJsWhitespace(text[0]) && !IsJsWhitespace(text[|text| - 1]))
    ensures StripFences(text) == text
  {
    assert text + [] == text;
    RemoveFenceLinesPlainPrefix(text, []);
    RemoveTicksPlain(text);
    TrimKeepsTrimmed(text);
  }
}
