/** How patterns are written: every text is the spelling of a pattern, and what each spelling means. */
module PatternSyntax {
  import opened Bytes
  import opened Pattern

  // ----- Spellings -----

  /** A member of a class: a byte, an escaped byte, or two ends of a range in either order. */
  datatype Member = One(b: Byte) | Quoted(b: Byte) | Span(a: Byte, b: Byte)

  /** A piece of a pattern, as it is written. An unclosed class runs to the end of the pattern. */
  datatype Piece =
    | Run
    | Single
    | Plain(b: Byte)
    | Escaped(b: Byte)
    | Bracket(negated: bool, members: seq<Member>, closed: bool)

  function WriteMember(m: Member): Bytes {
    match m
    case One(b) => [b]
    case Quoted(b) => ['\\', b]
    case Span(a, b) => [a, '-', b]
  }

  /** The members of a class, and what follows them. */
  function WriteMembers(members: seq<Member>, rest: Bytes): Bytes {
    if members == [] then rest else WriteMember(members[0]) + WriteMembers(members[1..], rest)
  }

  function Write(pieces: seq<Piece>): Bytes {
    if pieces == [] then [] else WritePiece(pieces[0], Write(pieces[1..]))
  }

  /** A piece, and the rest of the pattern. */
  function WritePiece(piece: Piece, rest: Bytes): Bytes {
    match piece
    case Run => "*" + rest
    case Single => "?" + rest
    case Plain(b) => [b] + rest
    case Escaped(b) => ['\\', b] + rest
    case Bracket(negated, members, closed) =>
      (if negated then "[^" else "[") + WriteMembers(members, (if closed then "]" else "") + rest)
  }

  // ----- Which spellings are read as they are meant -----

  /** A byte stands for itself in a class unless it closes it, escapes the next or starts a range. */
  predicate MemberFits(m: Member, rest: Bytes) {
    match m
    case One(b) => b != ']' && (b == '\\' ==> rest == []) && (|rest| > 1 ==> rest[0] != '-')
    case Quoted(_) => true
    case Span(a, _) => a != ']' && a != '\\'
  }

  predicate MembersFit(members: seq<Member>, rest: Bytes) {
    members == [] || (MemberFits(members[0], WriteMembers(members[1..], rest)) && MembersFit(members[1..], rest))
  }

  /** A byte stands for itself outside a class unless it is special; a lone backslash may end the pattern. */
  predicate PieceFits(piece: Piece, rest: Bytes) {
    match piece
    case Plain(b) => b != '*' && b != '?' && b != '[' && (b == '\\' ==> rest == [])
    case Bracket(negated, members, closed) =>
      var tail := (if closed then "]" else "") + rest;
      && MembersFit(members, tail) && (!closed ==> rest == [])
      && (!negated ==> WriteMembers(members, tail) == [] || WriteMembers(members, tail)[0] != '^')
    case _ => true
  }

  predicate Fitting(pieces: seq<Piece>) {
    pieces == [] || (PieceFits(pieces[0], Write(pieces[1..])) && Fitting(pieces[1..]))
  }

  // ----- What spellings mean -----

  /** The bytes a member of a class names: those between the ends of a range, whichever comes first. */
  predicate Names(m: Member, c: Byte) {
    match m
    case One(b) => c == b
    case Quoted(b) => c == b
    case Span(a, b) => a <= c <= b || b <= c <= a
  }

  /** One byte against one piece other than a star. */
  predicate Takes(piece: Piece, c: Byte) {
    match piece
    case Run => true
    case Single => true
    case Plain(b) => c == b
    case Escaped(b) => c == b
    case Bracket(negated, members, _) => (exists i :: 0 <= i < |members| && Names(members[i], c)) != negated
  }

  /** The text splits into one part for each piece: any part for a star, a byte it takes for any other. */
  ghost predicate Splits(pieces: seq<Piece>, parts: seq<Bytes>, text: Bytes) {
    && |parts| == |pieces| && Flatten(parts) == text
    && forall i :: 0 <= i < |pieces| ==> pieces[i].Run? || (|parts[i]| == 1 && Takes(pieces[i], parts[i][0]))
  }

  // ----- Reading undoes writing -----

  function RangeOf(m: Member): Range {
    match m
    case One(b) => Range(b, b)
    case Quoted(b) => Range(b, b)
    case Span(a, b) => if a <= b then Range(a, b) else Range(b, a)
  }

  function Ranges(members: seq<Member>): seq<Range> {
    seq(|members|, i requires 0 <= i < |members| => RangeOf(members[i]))
  }

  function TokenOf(piece: Piece): Token {
    match piece
    case Run => Star
    case Single => Any
    case Plain(b) => Literal(b)
    case Escaped(b) => Literal(b)
    case Bracket(negated, members, _) => Class(negated, Ranges(members))
  }

  function Tokens(pieces: seq<Piece>): seq<Token> {
    seq(|pieces|, i requires 0 <= i < |pieces| => TokenOf(pieces[i]))
  }

  /** The members of a class are read back, up to what closes it. */
  lemma {:induction false} ReadMembers(members: seq<Member>, rest: Bytes)
    requires MembersFit(members, rest) && (rest == [] || rest[0] == ']')
    ensures ClassMembers(WriteMembers(members, rest)) == Ranges(members)
    ensures ClassEnd(WriteMembers(members, rest)) == rest
  {
    if members != [] {
      var tail := WriteMembers(members[1..], rest);
      ReadMembers(members[1..], rest);
      assert Ranges(members) == [RangeOf(members[0])] + Ranges(members[1..]);
      ReadMember(members[0], tail);
    }
  }

  lemma ReadMember(m: Member, rest: Bytes)
    requires MemberFits(m, rest)
    ensures ClassMembers(WriteMember(m) + rest) == [RangeOf(m)] + ClassMembers(rest)
    ensures ClassEnd(WriteMember(m) + rest) == ClassEnd(rest)
  {
    var p := WriteMember(m) + rest;
    match m
    case One(_) => assert p[1..] == rest;
    case Quoted(_) => assert p[2..] == rest;
    case Span(_, _) => assert p[3..] == rest;
  }

  lemma ReadBracket(negated: bool, members: seq<Member>, closed: bool, rest: Bytes)
    requires PieceFits(Bracket(negated, members, closed), rest)
    ensures var p := WritePiece(Bracket(negated, members, closed), rest);
      Head(p) == Class(negated, Ranges(members)) && Tail(p) == rest
  {
    var p := WritePiece(Bracket(negated, members, closed), rest);
    var tail := (if closed then "]" else "") + rest;
    ReadMembers(members, tail);
    assert p[|if negated then "[^" else "["|..] == WriteMembers(members, tail);
    assert Negated(p) == negated;
    assert Drop1(tail) == rest;
  }

  lemma ReadPiece(piece: Piece, rest: Bytes)
    requires PieceFits(piece, rest)
    ensures var p := WritePiece(piece, rest); p != [] && Head(p) == TokenOf(piece) && Tail(p) == rest
  {
    var p := WritePiece(piece, rest);
    match piece
    case Escaped(_) => assert p[2..] == rest;
    case Bracket(negated, members, closed) => ReadBracket(negated, members, closed, rest);
    case _ => assert p[1..] == rest;
  }

  /** Whatever is written is read back, piece by piece. */
  lemma {:induction false} TokenizeWrite(pieces: seq<Piece>)
    requires Fitting(pieces)
    ensures Tokenize(Write(pieces)) == Tokens(pieces)
  {
    if pieces != [] {
      ReadPiece(pieces[0], Write(pieces[1..]));
      TokenizeWrite(pieces[1..]);
      assert Tokens(pieces) == [TokenOf(pieces[0])] + Tokens(pieces[1..]);
    }
  }

  // ----- Every text is such a writing -----

  lemma {:induction false} SpellMembers(p: Bytes) returns (members: seq<Member>)
    ensures WriteMembers(members, ClassEnd(p)) == p && MembersFit(members, ClassEnd(p))
    ensures ClassEnd(p) == [] || ClassEnd(p)[0] == ']'
    decreases |p|
  {
    if |p| > 1 && p[0] == '\\' {
      var more := SpellMembers(p[2..]);
      members := [Quoted(p[1])] + more;
      assert p == ['\\', p[1]] + p[2..];
    } else if p == [] || p[0] == ']' {
      members := [];
    } else if |p| > 2 && p[1] == '-' {
      var more := SpellMembers(p[3..]);
      members := [Span(p[0], p[2])] + more;
      assert p == [p[0], '-', p[2]] + p[3..];
    } else {
      var more := SpellMembers(p[1..]);
      members := [One(p[0])] + more;
      assert p == [p[0]] + p[1..];
    }
    if members != [] {
      assert members[1..] + [] == members[1..];
    }
  }

  lemma SpellBracket(p: Bytes) returns (piece: Piece)
    requires p != [] && p[0] == '['
    ensures WritePiece(piece, Tail(p)) == p && PieceFits(piece, Tail(p))
  {
    var body, end := ClassBody(p), ClassEnd(ClassBody(p));
    var members := SpellMembers(body);
    piece := Bracket(Negated(p), members, end != []);
    assert (if end != [] then "]" else "") + Tail(p) == end;
    assert p == (if Negated(p) then "[^" else "[") + body;
  }

  /** Every text is the writing of exactly readable pieces: there are no other patterns. */
  lemma {:induction false} EveryPatternIsWritten(p: Bytes) returns (pieces: seq<Piece>)
    ensures Fitting(pieces) && Write(pieces) == p
    decreases |p|
  {
    if p == [] {
      pieces := [];
    } else {
      var more := EveryPatternIsWritten(Tail(p));
      var piece;
      if p[0] == '[' {
        piece := SpellBracket(p);
      } else if p[0] == '\\' && |p| > 1 {
        piece := Escaped(p[1]);
        assert p == ['\\', p[1]] + p[2..];
      } else {
        piece := if p[0] == '*' then Run else if p[0] == '?' then Single else Plain(p[0]);
        assert p == [p[0]] + p[1..];
      }
      pieces := [piece] + more;
      assert pieces[1..] == more;
    }
  }

  // ----- What is written is what is matched -----

  lemma ClassMeaning(members: seq<Member>, c: Byte)
    ensures InRanges(Ranges(members), c) <==> exists i :: 0 <= i < |members| && Names(members[i], c)
  {
    var ranges := Ranges(members);
    if i :| 0 <= i < |members| && Names(members[i], c) {
      assert ranges[i] in ranges && ranges[i].lo <= c <= ranges[i].hi;
    }
    if InRanges(ranges, c) {
      var r :| r in ranges && r.lo <= c <= r.hi;
      var i :| 0 <= i < |ranges| && ranges[i] == r;
      assert Names(members[i], c);
    }
  }

  lemma PieceMeaning(piece: Piece, c: Byte)
    ensures Accepts(TokenOf(piece), c) <==> Takes(piece, c)
  {
    if piece.Bracket? {
      ClassMeaning(piece.members, c);
    }
  }

  lemma SplitMeaning(pieces: seq<Piece>, parts: seq<Bytes>, text: Bytes)
    ensures Parses(Tokens(pieces), parts, text) <==> Splits(pieces, parts, text)
  {
    var tokens := Tokens(pieces);
    if |parts| == |pieces| {
      forall i | 0 <= i < |pieces|
        ensures Fits(tokens[i], parts[i]) <==> pieces[i].Run? || (|parts[i]| == 1 && Takes(pieces[i], parts[i][0]))
      {
        if |parts[i]| == 1 {
          PieceMeaning(pieces[i], parts[i][0]);
        }
      }
    }
  }

  /** The searches a pattern nests: its stars with some other piece right after them. */
  function Searches(pieces: seq<Piece>): nat {
    if pieces == [] then 0
    else (if pieces[0].Run? && |pieces| > 1 && !pieces[1].Run? then 1 else 0) + Searches(pieces[1..])
  }

  lemma {:induction false} SearchesAreStarRuns(pieces: seq<Piece>)
    ensures StarRuns(Tokens(pieces)) == Searches(pieces)
  {
    if pieces != [] {
      SearchesAreStarRuns(pieces[1..]);
      assert Tokens(pieces)[1..] == Tokens(pieces[1..]);
    }
  }

  /** A non-empty text matches exactly when it splits along the pieces, and at most 1000 searches are nested. */
  lemma MatchesAsWritten(text: Bytes, pieces: seq<Piece>)
    requires Fitting(pieces) && text != []
    ensures GlobMatch(text, Write(pieces)) <==> (exists parts :: Splits(pieces, parts, text)) && Searches(pieces) <= 1000
  {
    TokenizeWrite(pieces);
    SearchesAreStarRuns(pieces);
    if Denotes(Tokens(pieces), text) {
      var parts :| Parses(Tokens(pieces), parts, text);
      SplitMeaning(pieces, parts, text);
    }
    if parts :| Splits(pieces, parts, text) {
      SplitMeaning(pieces, parts, text);
    }
  }

  lemma WriteRange(a: Byte, b: Byte, negated: bool) returns (pieces: seq<Piece>)
    requires a != ']' && a != '\\' && (a == '^' ==> negated)
    ensures pieces == [Bracket(negated, [Span(a, b)], true)] && Fitting(pieces)
    ensures Write(pieces) == (if negated then "[^" else "[") + [a, '-', b] + "]"
  {
    pieces := [Bracket(negated, [Span(a, b)], true)];
    assert pieces[1..] == [] && [Span(a, b)][1..] == [];
    assert WriteMembers([Span(a, b)], "]") == [a, '-', b] + "]";
    assert "]" + [] == "]";
    assert PieceFits(pieces[0], []);
    assert Write(pieces) == WritePiece(pieces[0], []);
  }

  lemma OnePiece(piece: Piece, c: Byte)
    requires !piece.Run?
    ensures (exists parts :: Splits([piece], parts, [c])) <==> Takes(piece, c)
  {
    if Takes(piece, c) {
      assert [[c]][1..] == [];
      assert Splits([piece], [[c]], [c]);
    }
    if parts :| Splits([piece], parts, [c]) {
      assert parts[1..] == [] && Flatten(parts) == parts[0] + Flatten(parts[1..]);
      assert parts[0] == [c] && [piece][0].Run? == piece.Run?;
    }
  }

  /** `[a-b]` and `[b-a]` match the bytes from a to b, and `[^a-b]` the others. */
  lemma RangeMatches(a: Byte, b: Byte, c: Byte, negated: bool)
    requires a != ']' && a != '\\' && (a == '^' ==> negated)
    ensures GlobMatch([c], (if negated then "[^" else "[") + [a, '-', b] + "]") <==> (a <= c <= b || b <= c <= a) != negated
  {
    var pieces := WriteRange(a, b, negated);
    MatchesAsWritten([c], pieces);
    OnePiece(pieces[0], c);
    assert Takes(pieces[0], c) <==> Names(pieces[0].members[0], c) != negated;
  }
}
