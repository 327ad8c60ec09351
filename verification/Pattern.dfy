/** The glob matcher behind KEYS: what a pattern means, and the search that decides it. */
module Pattern {
  import opened Bytes

  const MAX_DEPTH: nat := 1000

  // ----- The pattern language -----

  datatype Range = Range(lo: Byte, hi: Byte)

  datatype Token =
    | Star
    | Any
    | Literal(b: Byte)
    | Class(negated: bool, members: seq<Range>)

  /** A reversed range is swapped. */
  function Ordered(a: Byte, b: Byte): Range {
    if a > b then Range(b, a) else Range(a, b)
  }

  /** The members of a class whose body starts at `p`, up to its closing bracket or the pattern's end. */
  function ClassMembers(p: Bytes): seq<Range> {
    if |p| > 1 && p[0] == '\\' then [Range(p[1], p[1])] + ClassMembers(p[2..])
    else if p == [] || p[0] == ']' then []
    else if |p| > 2 && p[1] == '-' then [Ordered(p[0], p[2])] + ClassMembers(p[3..])
    else [Range(p[0], p[0])] + ClassMembers(p[1..])
  }

  /** The pattern from the closing bracket of that class on; empty if the class is unterminated. */
  function ClassEnd(p: Bytes): (r: Bytes)
    ensures |r| <= |p|
  {
    if |p| > 1 && p[0] == '\\' then ClassEnd(p[2..])
    else if p == [] || p[0] == ']' then p
    else if |p| > 2 && p[1] == '-' then ClassEnd(p[3..])
    else ClassEnd(p[1..])
  }

  function Drop1(p: Bytes): Bytes {
    if p == [] then [] else p[1..]
  }

  predicate Negated(p: Bytes)
    requires p != []
  {
    |p| > 1 && p[1] == '^'
  }

  function ClassBody(p: Bytes): Bytes
    requires p != []
  {
    if Negated(p) then p[2..] else p[1..]
  }

  function Head(p: Bytes): Token
    requires p != []
  {
    if p[0] == '*' then Star
    else if p[0] == '?' then Any
    else if p[0] == '[' then Class(Negated(p), ClassMembers(ClassBody(p)))
    else if p[0] == '\\' && |p| > 1 then Literal(p[1])
    else Literal(p[0])
  }

  function Tail(p: Bytes): (r: Bytes)
    requires p != []
    ensures |r| < |p|
  {
    if p[0] == '[' then Drop1(ClassEnd(ClassBody(p)))
    else if p[0] == '\\' && |p| > 1 then p[2..]
    else p[1..]
  }

  function Tokenize(p: Bytes): seq<Token>
    decreases |p|
  {
    if p == [] then [] else [Head(p)] + Tokenize(Tail(p))
  }

  // ----- What a tokenised pattern means -----

  predicate InRanges(members: seq<Range>, c: Byte) {
    exists r :: r in members && r.lo <= c <= r.hi
  }

  predicate Accepts(t: Token, c: Byte) {
    match t
    case Star => true
    case Any => true
    case Literal(b) => b == c
    case Class(negated, members) => InRanges(members, c) != negated
  }

  function Flatten(parts: seq<Bytes>): Bytes {
    if parts == [] then [] else parts[0] + Flatten(parts[1..])
  }

  predicate Fits(t: Token, part: Bytes) {
    t.Star? || (|part| == 1 && Accepts(t, part[0]))
  }

  ghost predicate Parses(tokens: seq<Token>, parts: seq<Bytes>, s: Bytes) {
    && |parts| == |tokens|
    && Flatten(parts) == s
    && forall i :: 0 <= i < |tokens| ==> Fits(tokens[i], parts[i])
  }

  /** The declarative meaning: the string splits into one part per token, each fitting its token. */
  ghost predicate Denotes(tokens: seq<Token>, s: Bytes) {
    exists parts :: Parses(tokens, parts, s)
  }

  /** The same meaning, token by token. */
  ghost predicate Matches(tokens: seq<Token>, s: Bytes)
    decreases |tokens|, 0
  {
    if tokens == [] then s == []
    else if tokens[0].Star? then MatchesSuffix(tokens[1..], s)
    else s != [] && Accepts(tokens[0], s[0]) && Matches(tokens[1..], s[1..])
  }

  /** `tokens` match `s` after some prefix of it is skipped. */
  ghost predicate MatchesSuffix(tokens: seq<Token>, s: Bytes)
    decreases |tokens|, 1
  {
    exists k :: 0 <= k <= |s| && Matches(tokens, s[k..])
  }

  lemma {:induction false} MatchesIsDenotes(tokens: seq<Token>, s: Bytes)
    ensures Matches(tokens, s) <==> Denotes(tokens, s)
    decreases |tokens|
  {
    if Matches(tokens, s) {
      var parts := MatchParts(tokens, s);
    }
    if Denotes(tokens, s) {
      var parts :| Parses(tokens, parts, s);
      PartsMatch(tokens, parts, s);
    }
  }

  lemma {:induction false} MatchParts(tokens: seq<Token>, s: Bytes) returns (parts: seq<Bytes>)
    requires Matches(tokens, s)
    ensures Parses(tokens, parts, s)
    decreases |tokens|
  {
    if tokens == [] {
      parts := [];
    } else {
      var k := 1;
      if tokens[0].Star? {
        k :| 0 <= k <= |s| && Matches(tokens[1..], s[k..]);
      }
      var rest := MatchParts(tokens[1..], s[k..]);
      parts := [s[..k]] + rest;
      assert parts[1..] == rest;
    }
  }

  lemma {:induction false} PartsMatch(tokens: seq<Token>, parts: seq<Bytes>, s: Bytes)
    requires Parses(tokens, parts, s)
    ensures Matches(tokens, s)
    decreases |tokens|
  {
    if tokens != [] {
      var k := |parts[0]|;
      assert s[k..] == Flatten(parts[1..]);
      forall i | 0 <= i < |tokens[1..]| ensures Fits(tokens[1..][i], parts[1..][i]) {
        assert Fits(tokens[i + 1], parts[i + 1]);
      }
      PartsMatch(tokens[1..], parts[1..], s[k..]);
      assert Fits(tokens[0], parts[0]);
      if !tokens[0].Star? {
        assert s[0] == parts[0][0];
      }
    }
  }

  /** Stars that some later non-star token follows at once: one level of search each. */
  function StarRuns(tokens: seq<Token>): nat {
    if tokens == [] then 0
    else (if tokens[0].Star? && |tokens| > 1 && !tokens[1].Star? then 1 else 0) + StarRuns(tokens[1..])
  }

  /** A match the search can still afford to find when it is already `depth` stars deep. */
  ghost predicate Hit(p: Bytes, s: Bytes, depth: nat) {
    Matches(Tokenize(p), s) && depth + StarRuns(Tokenize(p)) <= MAX_DEPTH
  }

  ghost predicate SuffixHit(p: Bytes, s: Bytes, depth: nat) {
    MatchesSuffix(Tokenize(p), s) && depth + StarRuns(Tokenize(p)) <= MAX_DEPTH
  }

  // ----- Facts the search rests on -----

  /** Consuming a one-character token. */
  lemma ConsumeOne(p: Bytes, s: Bytes, depth: nat)
    requires p != [] && p[0] != '*' && s != []
    ensures Hit(p, s, depth) <==> Accepts(Head(p), s[0]) && Hit(Tail(p), s[1..], depth)
    ensures SuffixHit(p, s, depth) ==> SuffixHit(Tail(p), s[1..], depth)
  {
    var t := Tokenize(p);
    assert t[1..] == Tokenize(Tail(p));
    if SuffixHit(p, s, depth) {
      var k :| 0 <= k <= |s| && Matches(t, s[k..]);
      assert s[k..][1..] == s[1..][k..];
    }
  }

  /** A run of stars is equal to a single one. */
  lemma CollapseStars(p: Bytes, s: Bytes, depth: nat)
    requires |p| > 1 && p[0] == p[1] == '*'
    ensures Hit(p, s, depth) <==> Hit(p[1..], s, depth)
    ensures SuffixHit(p, s, depth) <==> SuffixHit(p[1..], s, depth)
  {
    var t := Tokenize(p);
    assert t[1..] == Tokenize(p[1..]);
    assert t[1].Star?;
    SuffixOfStar(t[1..], s);
    SuffixOfStar(t, s);
  }

  /** A star already allows any prefix to be skipped. */
  lemma SuffixOfStar(tokens: seq<Token>, s: Bytes)
    requires tokens != [] && tokens[0].Star?
    ensures MatchesSuffix(tokens, s) <==> Matches(tokens, s)
  {
    if Matches(tokens, s) {
      assert s[0..] == s;
    }
    if MatchesSuffix(tokens, s) {
      var k :| 0 <= k <= |s| && Matches(tokens, s[k..]);
      assert MatchesSuffix(tokens[1..], s[k..]);
      var j :| 0 <= j <= |s[k..]| && Matches(tokens[1..], s[k..][j..]);
      assert s[k..][j..] == s[k + j..];
    }
  }

  /** A star before a non-star token: a suffix matching the rest, one level deeper, is a match. */
  lemma StarFound(p: Bytes, s: Bytes, depth: nat, k: nat)
    requires |p| > 1 && p[0] == '*' && p[1] != '*'
    requires k < |s| && Hit(p[1..], s[k..], depth + 1)
    ensures Hit(p, s, depth)
  {
    var t := Tokenize(p);
    assert t[1..] == Tokenize(p[1..]);
    assert Matches(t[1..], s[k..]);
  }

  /** If no suffix matches the rest, neither the star nor any longer match of an enclosing star helps. */
  lemma StarNotFound(p: Bytes, s: Bytes, depth: nat)
    requires |p| > 1 && p[0] == '*' && p[1] != '*'
    requires forall k :: 0 <= k < |s| ==> !Hit(p[1..], s[k..], depth + 1)
    ensures !Hit(p, s, depth) && !SuffixHit(p, s, depth)
  {
    var t := Tokenize(p);
    assert t[1..] == Tokenize(p[1..]);
    assert !t[1].Star?;
    SuffixOfStar(t, s);
    if depth + StarRuns(t) <= MAX_DEPTH {
      forall k | 0 <= k <= |s| ensures !Matches(t[1..], s[k..]) {
        if k < |s| {
          assert !Hit(p[1..], s[k..], depth + 1);
        }
      }
    }
  }

  lemma NoSuffixHit(p: Bytes, s: Bytes, depth: nat, k: nat)
    requires k <= |s| && !SuffixHit(p, s[k..], depth)
    requires forall j :: 0 <= j < k ==> !Hit(p, s[j..], depth)
    ensures forall j :: 0 <= j < |s| ==> !Hit(p, s[j..], depth)
  {
    forall j | k <= j < |s| ensures !Hit(p, s[j..], depth) {
      assert s[j..] == s[k..][j - k..];
    }
  }

  lemma TrailingStar(p: Bytes, s: Bytes, depth: nat)
    requires p == "*" && depth <= MAX_DEPTH
    ensures Hit(p, s, depth)
  {
    assert Tokenize(p)[1..] == [];
    assert Matches([], s[|s|..]);
  }

  lemma {:induction false} StarsMatchEmpty(p: Bytes, depth: nat)
    requires depth <= MAX_DEPTH
    ensures Hit(p, [], depth) <==> SkipStars(p) == []
  {
    if p != [] {
      var t := Tokenize(p);
      assert t[1..] == Tokenize(Tail(p));
      if p[0] == '*' {
        StarsMatchEmpty(p[1..], depth);
        var e: Bytes := [];
        assert e[0..] == e;
        assert Matches(t, e) == MatchesSuffix(t[1..], e);
        if MatchesSuffix(t[1..], e) {
          var k :| 0 <= k <= |e| && Matches(t[1..], e[k..]);
          assert e[k..] == e;
          AllStars(t[1..]);
        }
      }
    }
  }

  lemma {:induction false} AllStars(tokens: seq<Token>)
    requires Matches(tokens, [])
    ensures StarRuns(tokens) == 0
    ensures tokens != [] ==> tokens[0].Star?
  {
    if tokens != [] {
      var e: Bytes := [];
      var k :| 0 <= k <= 0 && Matches(tokens[1..], e[k..]);
      assert e[k..] == e;
      AllStars(tokens[1..]);
    }
  }

  function SkipStars(p: Bytes): Bytes {
    if p != [] && p[0] == '*' then SkipStars(p[1..]) else p
  }

  // ----- The search -----

  /** Walks a class to its closing bracket, recording whether any member matched `c`. */
  method WalkClass(body: Bytes, c: Byte) returns (matched: bool, pattern: Bytes)
    ensures pattern == ClassEnd(body)
    ensures matched <==> InRanges(ClassMembers(body), c)
  {
    matched, pattern := false, body;
    while true
      invariant ClassEnd(pattern) == ClassEnd(body)
      invariant InRanges(ClassMembers(body), c) <==> matched || InRanges(ClassMembers(pattern), c)
      decreases |pattern|
    {
      ghost var rest := pattern;
      if |pattern| > 1 && pattern[0] == '\\' {
        pattern := pattern[1..];
        matched := matched || pattern[0] == c;
        assert rest[2..] == pattern[1..];
        MemberOrRest(Range(pattern[0], pattern[0]), ClassMembers(rest[2..]), c);
      } else if pattern != [] && pattern[0] == ']' {
        break;
      } else if pattern == [] {
        break;
      } else if |pattern| > 2 && pattern[1] == '-' {
        var start, end := pattern[0], pattern[2];
        if start > end {
          start, end := end, start;
        }
        matched := matched || start <= c <= end;
        pattern := pattern[2..];
        assert rest[3..] == pattern[1..];
        MemberOrRest(Range(start, end), ClassMembers(rest[3..]), c);
      } else {
        matched := matched || pattern[0] == c;
        MemberOrRest(Range(pattern[0], pattern[0]), ClassMembers(rest[1..]), c);
      }
      pattern := pattern[1..];
    }
  }

  lemma MemberOrRest(r: Range, members: seq<Range>, c: Byte)
    ensures InRanges([r] + members, c) <==> r.lo <= c <= r.hi || InRanges(members, c)
  {
    if InRanges(members, c) {
      var m :| m in members && m.lo <= c <= m.hi;
      assert m in [r] + members;
    }
    assert r in [r] + members;
  }

  /** Most calls a search of `s` may take: one per offset, plus one when it starts at a star. */
  function CallBound(p: Bytes, s: Bytes): nat {
    |s| + if p != [] && p[0] != '*' && s != [] then 0 else 1
  }

  /**
   * One call of the search. The flag is clear on entry, since a search that sets it is unwound at once.
   *
   * `calls` counts the calls made, this one included.
   */
  method StringMatchImpl(text0: Bytes, pattern0: Bytes, skipLongerMatches0: bool, depth: nat)
    returns (matched: bool, skipLongerMatches: bool, calls: nat)
    requires !skipLongerMatches0
    ensures text0 == [] ==> !skipLongerMatches && (matched <==> pattern0 == [] && depth <= MAX_DEPTH)
    ensures text0 != [] ==> (matched <==> Hit(pattern0, text0, depth))
    ensures skipLongerMatches ==> !matched && !SuffixHit(pattern0, text0, depth)
    ensures calls <= CallBound(pattern0, text0)
    ensures !matched && !skipLongerMatches ==> calls == 1
    decreases if depth <= MAX_DEPTH then MAX_DEPTH + 1 - depth else 0
  {
    var text, pattern := text0, pattern0;
    skipLongerMatches, calls := skipLongerMatches0, 1;
    if depth > MAX_DEPTH {
      return false, skipLongerMatches, calls;
    }

    while pattern != [] && text != []
      invariant (text == text0 && pattern == pattern0) || |text| < |text0|
      invariant text0 != [] ==> text != []
      invariant Hit(pattern0, text0, depth) <==> Hit(pattern, text, depth)
      invariant SuffixHit(pattern0, text0, depth) ==> SuffixHit(pattern, text, depth)
      decreases |text|
    {
      ghost var p, s := pattern, text;
      if pattern[0] == '*' {
        matched, skipLongerMatches, calls := TryStar(text, pattern, depth);
        return;
      } else if pattern[0] == '?' {
      } else if pattern[0] == '[' {
        pattern := pattern[1..];
        var negated := pattern != [] && pattern[0] == '^';
        if negated {
          pattern := pattern[1..];
        }
        assert pattern == ClassBody(p);
        var inClass;
        inClass, pattern := WalkClass(pattern, text[0]);
        if inClass == negated {
          ConsumeOne(p, s, depth);
          return false, skipLongerMatches, calls;
        }
      } else if pattern[0] == '\\' && |pattern| > 1 {
        pattern := pattern[1..];
        if pattern[0] != text[0] {
          ConsumeOne(p, s, depth);
          return false, skipLongerMatches, calls;
        }
      } else {
        if pattern[0] != text[0] {
          ConsumeOne(p, s, depth);
          return false, skipLongerMatches, calls;
        }
      }

      if pattern != [] {
        pattern := pattern[1..];
      }
      text := text[1..];
      assert pattern == Tail(p);
      ConsumeOne(p, s, depth);

      if text == [] {
        StarsMatchEmpty(pattern, depth);
        ghost var before := pattern;
        while pattern != [] && pattern[0] == '*'
          invariant SkipStars(pattern) == SkipStars(before)
        {
          pattern := pattern[1..];
        }
        StarsMatchEmpty(pattern, depth);
        return pattern == [], skipLongerMatches, calls;
      }
    }

    matched := pattern == [] && text == [];
  }

  /** The star arm of the search: tries the rest of the pattern at every remaining offset. */
  method TryStar(text0: Bytes, pattern0: Bytes, depth: nat)
    returns (matched: bool, skipLongerMatches: bool, calls: nat)
    requires pattern0 != [] && pattern0[0] == '*' && text0 != [] && depth <= MAX_DEPTH
    ensures matched <==> Hit(pattern0, text0, depth)
    ensures !matched <==> skipLongerMatches
    ensures skipLongerMatches ==> !SuffixHit(pattern0, text0, depth)
    ensures calls <= |text0| + 1
    decreases MAX_DEPTH + 1 - depth, 0
  {
    var text, pattern := text0, pattern0;
    skipLongerMatches, calls := false, 1;

    while |pattern| > 1 && pattern[1] == '*'
      invariant pattern != [] && pattern[0] == '*'
      invariant Hit(pattern0, text, depth) <==> Hit(pattern, text, depth)
      invariant SuffixHit(pattern0, text, depth) <==> SuffixHit(pattern, text, depth)
    {
      CollapseStars(pattern, text, depth);
      pattern := pattern[1..];
    }

    if |pattern| == 1 {
      TrailingStar(pattern, text, depth);
      return true, skipLongerMatches, calls;
    }

    ghost var k := 0;
    while text != []
      invariant k <= |text0| && text == text0[k..]
      invariant forall j :: 0 <= j < k ==> !Hit(pattern[1..], text0[j..], depth + 1)
      invariant !skipLongerMatches && calls == 1 + k
    {
      var inner;
      matched, skipLongerMatches, inner :=
        StringMatchImpl(text, pattern[1..], skipLongerMatches, depth + 1);
      calls := calls + inner;
      if matched {
        StarFound(pattern, text0, depth, k);
        return;
      }
      if skipLongerMatches {
        NoSuffixHit(pattern[1..], text0, depth + 1, k);
        StarNotFound(pattern, text0, depth);
        return;
      }
      text := text[1..];
      k := k + 1;
    }

    StarNotFound(pattern, text0, depth);
    skipLongerMatches := true;
    matched := false;
  }

  /** Glob-style match of a whole string. */
  method StringMatch(text: Bytes, pattern: Bytes) returns (matched: bool, calls: nat)
    ensures matched <==> GlobMatch(text, pattern)
    ensures calls <= |text| + 1
  {
    var skip;
    matched, skip, calls := StringMatchImpl(text, pattern, false, 0);
    MatchesIsDenotes(Tokenize(pattern), text);
  }

  /** Exactly which strings the search accepts. */
  ghost predicate GlobMatch(text: Bytes, pattern: Bytes) {
    if text == [] then pattern == []
    else Denotes(Tokenize(pattern), text) && StarRuns(Tokenize(pattern)) <= MAX_DEPTH
  }

  // ----- The search without the flag -----

  /** The plain search: every star tries every offset, whatever failed before. */
  ghost predicate PlainSearch(p: Bytes, s: Bytes, depth: nat)
    decreases |p|, 1
  {
    depth <= MAX_DEPTH && if s == [] then p == [] else PlainScan(p, s, depth)
  }

  ghost predicate PlainScan(p: Bytes, s: Bytes, depth: nat)
    decreases |p|, 0
  {
    if s == [] then SkipStars(p) == []
    else if p == [] then false
    else if p[0] == '*' then
      if |p| == 1 then true
      else if p[1] == '*' then PlainScan(p[1..], s, depth)
      else exists k :: 0 <= k < |s| && PlainSearch(p[1..], s[k..], depth + 1)
    else Accepts(Head(p), s[0]) && PlainScan(Tail(p), s[1..], depth)
  }

  lemma {:induction false} PlainScanExact(p: Bytes, s: Bytes, depth: nat)
    requires depth <= MAX_DEPTH
    ensures PlainScan(p, s, depth) <==> Hit(p, s, depth)
    decreases |p|, 1
  {
    if s == [] {
      StarsMatchEmpty(p, depth);
    } else if p == [] {
    } else if p[0] != '*' {
      ConsumeOne(p, s, depth);
      PlainScanExact(Tail(p), s[1..], depth);
    } else if |p| == 1 {
      TrailingStar(p, s, depth);
    } else if p[1] == '*' {
      CollapseStars(p, s, depth);
      PlainScanExact(p[1..], s, depth);
    } else {
      PlainStarExact(p, s, depth);
    }
  }

  lemma {:induction false} PlainStarExact(p: Bytes, s: Bytes, depth: nat)
    requires depth <= MAX_DEPTH && s != [] && |p| > 1 && p[0] == '*' && p[1] != '*'
    ensures PlainScan(p, s, depth) <==> Hit(p, s, depth)
    decreases |p|, 0
  {
    forall k | 0 <= k < |s|
      ensures PlainSearch(p[1..], s[k..], depth + 1) <==> Hit(p[1..], s[k..], depth + 1)
    {
      if depth < MAX_DEPTH {
        PlainScanExact(p[1..], s[k..], depth + 1);
      }
    }
    if k :| 0 <= k < |s| && Hit(p[1..], s[k..], depth + 1) {
      StarFound(p, s, depth, k);
    } else {
      StarNotFound(p, s, depth);
    }
  }

  /** Pruning loses no match: the plain search accepts exactly the strings `StringMatch` accepts. */
  lemma PlainSearchExact(text: Bytes, pattern: Bytes)
    ensures PlainSearch(pattern, text, 0) <==> GlobMatch(text, pattern)
  {
    PlainScanExact(pattern, text, 0);
    MatchesIsDenotes(Tokenize(pattern), text);
  }

  function StarBytes(p: Bytes): nat {
    if p == [] then 0 else (if p[0] == '*' then 1 else 0) + StarBytes(p[1..])
  }

  lemma {:induction false} StarBytesOfClassEnd(p: Bytes)
    ensures StarBytes(ClassEnd(p)) <= StarBytes(p)
  {
    if |p| > 1 && p[0] == '\\' {
      StarBytesOfClassEnd(p[2..]);
      assert p[1..][1..] == p[2..];
    } else if p == [] || p[0] == ']' {
    } else if |p| > 2 && p[1] == '-' {
      StarBytesOfClassEnd(p[3..]);
      assert p[1..][1..] == p[2..] && p[2..][1..] == p[3..];
      assert StarBytes(p[1..]) >= StarBytes(p[2..]) >= StarBytes(p[3..]);
    } else {
      StarBytesOfClassEnd(p[1..]);
    }
  }

  /** A pattern with at most `MAX_DEPTH` star bytes never meets the depth cap. */
  lemma {:induction false} StarRunsBound(p: Bytes)
    ensures StarRuns(Tokenize(p)) <= StarBytes(p)
    decreases |p|
  {
    if p != [] {
      assert Tokenize(p)[1..] == Tokenize(Tail(p));
      StarRunsBound(Tail(p));
      if p[0] == '[' {
        StarBytesOfClassEnd(ClassBody(p));
        assert Negated(p) ==> p[1..][1..] == p[2..];
      } else if p[0] == '\\' && |p| > 1 {
        assert p[1..][1..] == p[2..];
      }
    }
  }

  /** With at most `MAX_DEPTH` star bytes, a non-empty string is accepted exactly when the pattern denotes it. */
  lemma ExactWithinCap(text: Bytes, pattern: Bytes)
    requires text != [] && StarBytes(pattern) <= MAX_DEPTH
    ensures GlobMatch(text, pattern) <==> Denotes(Tokenize(pattern), text)
  {
    StarRunsBound(pattern);
  }
}
