/** The options of SET may come in any order, and an operand is never taken for a keyword. */
module SetOptionOrder {
  import opened Bytes
  import opened Decimal
  import opened Command

  /** One option as a client writes it: its keyword, and the operand if it takes one. */
  datatype Group =
    | Nx
    | Xx
    | IfEqual(operand: Bytes)
    | IfNotEqual(operand: Bytes)
    | IfDigest(operand: Bytes)
    | IfNotDigest(operand: Bytes)
    | ReturnOld
    | Seconds(operand: Bytes)
    | Millis(operand: Bytes)
    | AtSeconds(operand: Bytes)
    | AtMillis(operand: Bytes)
    | Keep

  function Tokens(g: Group): (t: seq<Bytes>)
    ensures t != []
  {
    match g
    case Nx => ["NX"]
    case Xx => ["XX"]
    case IfEqual(s) => ["IFEQ", s]
    case IfNotEqual(s) => ["IFNE", s]
    case IfDigest(s) => ["IFDEQ", s]
    case IfNotDigest(s) => ["IFDNE", s]
    case ReturnOld => ["GET"]
    case Seconds(s) => ["EX", s]
    case Millis(s) => ["PX", s]
    case AtSeconds(s) => ["EXAT", s]
    case AtMillis(s) => ["PXAT", s]
    case Keep => ["KEEPTTL"]
  }

  predicate WellFormed(g: Group) {
    match g
    case IfDigest(s) => ParseHexU64(s).Some?
    case IfNotDigest(s) => ParseHexU64(s).Some?
    case Seconds(s) => ParseU64(s).Some?
    case Millis(s) => ParseU64(s).Some?
    case AtSeconds(s) => ParseU64(s).Some?
    case AtMillis(s) => ParseU64(s).Some?
    case _ => true
  }

  function Condition(g: Group): Option<SetCondition>
    requires WellFormed(g)
  {
    match g
    case Nx => Some(NX)
    case Xx => Some(XX)
    case IfEqual(s) => Some(IfEq(s))
    case IfNotEqual(s) => Some(IfNe(s))
    case IfDigest(s) => Some(IfDeq(ParseHexU64(s).value))
    case IfNotDigest(s) => Some(IfDne(ParseHexU64(s).value))
    case _ => None
  }

  function Expiry(g: Group): Option<SetExpiry>
    requires WellFormed(g)
  {
    match g
    case Seconds(s) => Some(Ex(ParseU64(s).value))
    case Millis(s) => Some(Px(ParseU64(s).value))
    case AtSeconds(s) => Some(ExAt(ParseU64(s).value))
    case AtMillis(s) => Some(PxAt(ParseU64(s).value))
    case Keep => Some(KeepTtl)
    case _ => None
  }

  predicate AllWellFormed(gs: seq<Group>) {
    forall i :: 0 <= i < |gs| ==> WellFormed(gs[i])
  }

  function AllTokens(gs: seq<Group>): seq<Bytes> {
    if gs == [] then [] else Tokens(gs[0]) + AllTokens(gs[1..])
  }

  // ----- Tokens aside, options are applied one by one -----

  function Apply(g: Group, acc: SetOptions): ParseResult<SetOptions>
    requires WellFormed(g)
  {
    if Condition(g).Some? then
      if acc.condition.Some? then Rejected(SyntaxError) else Parsed(acc.(condition := Condition(g)))
    else if Expiry(g).Some? then
      if acc.expiry.Some? then Rejected(SyntaxError) else Parsed(acc.(expiry := Expiry(g)))
    else Parsed(acc.(get := true))
  }

  function ApplyAll(gs: seq<Group>, acc: SetOptions): ParseResult<SetOptions>
    requires AllWellFormed(gs)
  {
    if gs == [] then Parsed(acc)
    else
      var first := Apply(gs[0], acc);
      if first.Parsed? then ApplyAll(gs[1..], first.value) else first
  }

  lemma ScanGroup(g: Group, t: seq<Bytes>, acc: SetOptions)
    requires WellFormed(g) && Tokens(g) <= t
    ensures ScanOne(t, acc) ==
      if Apply(g, acc).Parsed? then Parsed((Apply(g, acc).value, |Tokens(g)|)) else Rejected(SyntaxError)
  {
    assert t[0] == Tokens(g)[0];
    match g {
      case Nx | Xx => assert IsConditionWord(t[0]);
      case IfEqual(s) => assert t[1] == s && IsConditionWord(t[0]);
      case IfNotEqual(s) => assert t[1] == s && IsConditionWord(t[0]);
      case IfDigest(s) => assert t[1] == s && IsConditionWord(t[0]);
      case IfNotDigest(s) => assert t[1] == s && IsConditionWord(t[0]);
      case ReturnOld =>
      case Keep => assert IsExpiryWord(t[0]);
      case Seconds(s) => assert t[1] == s && IsExpiryWord(t[0]);
      case Millis(s) => assert t[1] == s && IsExpiryWord(t[0]);
      case AtSeconds(s) => assert t[1] == s && IsExpiryWord(t[0]);
      case AtMillis(s) => assert t[1] == s && IsExpiryWord(t[0]);
    }
  }

  lemma {:induction false} ScanGroups(gs: seq<Group>, acc: SetOptions)
    requires AllWellFormed(gs)
    ensures ScanOptions(AllTokens(gs), acc) == ApplyAll(gs, acc)
  {
    if gs != [] {
      var t := AllTokens(gs);
      var n := |Tokens(gs[0])|;
      assert t[n..] == AllTokens(gs[1..]);
      ScanGroup(gs[0], t, acc);
      if Apply(gs[0], acc).Parsed? {
        ScanGroups(gs[1..], Apply(gs[0], acc).value);
      }
    }
  }

  // ----- Order -----

  /** Neighbouring options commute, errors included. */
  lemma SwapNeighbours(g: Group, h: Group, rest: seq<Group>, acc: SetOptions)
    requires WellFormed(g) && WellFormed(h) && AllWellFormed(rest)
    ensures ApplyAll([g] + ([h] + rest), acc) == ApplyAll([h] + ([g] + rest), acc)
  {
    assert ([h] + rest)[1..] == rest && ([g] + rest)[1..] == rest;
    assert ([g] + ([h] + rest))[1..] == [h] + rest;
    assert ([h] + ([g] + rest))[1..] == [g] + rest;
  }

  /** Any option may be moved to the front. */
  lemma {:induction false} MoveToFront(gs: seq<Group>, i: nat, acc: SetOptions)
    requires AllWellFormed(gs) && i < |gs|
    ensures ApplyAll(gs, acc) == ApplyAll([gs[i]] + (gs[..i] + gs[i + 1..]), acc)
  {
    if i == 0 {
      assert gs == [gs[0]] + (gs[..0] + gs[1..]);
    } else {
      var tail := gs[1..];
      var rest := tail[..i - 1] + tail[i..];
      assert gs[..i] + gs[i + 1..] == [gs[0]] + rest;
      assert ([gs[0]] + ([gs[i]] + rest))[1..] == [gs[i]] + rest;
      SwapNeighbours(gs[0], gs[i], rest, acc);
      if Apply(gs[0], acc).Parsed? {
        MoveToFront(tail, i - 1, Apply(gs[0], acc).value);
      }
    }
  }

  lemma {:induction false} Permuted(gs: seq<Group>, hs: seq<Group>, acc: SetOptions)
    requires AllWellFormed(gs) && AllWellFormed(hs) && multiset(gs) == multiset(hs)
    ensures ApplyAll(gs, acc) == ApplyAll(hs, acc)
  {
    if gs == [] {
      assert |multiset(hs)| == 0;
    } else {
      assert gs[0] in multiset(hs);
      var i :| 0 <= i < |hs| && hs[i] == gs[0];
      var rest := hs[..i] + hs[i + 1..];
      WithoutOne(gs, hs, i);
      MoveToFront(hs, i, acc);
      assert ([gs[0]] + rest)[1..] == rest;
      if Apply(gs[0], acc).Parsed? {
        Permuted(gs[1..], rest, Apply(gs[0], acc).value);
      }
    }
  }

  lemma WithoutOne(gs: seq<Group>, hs: seq<Group>, i: nat)
    requires gs != [] && i < |hs| && hs[i] == gs[0] && multiset(gs) == multiset(hs)
    ensures multiset(gs[1..]) == multiset(hs[..i] + hs[i + 1..])
  {
    var before, after := hs[..i], hs[i + 1..];
    assert gs == [gs[0]] + gs[1..];
    assert hs == before + [hs[i]] + after;
    assert multiset(gs) == multiset{gs[0]} + multiset(gs[1..]);
    assert multiset(hs) == multiset(before) + multiset{hs[i]} + multiset(after);
    assert multiset(gs[1..]) == multiset(gs) - multiset{gs[0]};
    assert multiset(before + after) == multiset(before) + multiset(after) == multiset(hs) - multiset{hs[i]};
  }

  /** The tokens of well-formed options in any order parse to the same options, or to the same error. */
  lemma OrderDoesNotMatter(gs: seq<Group>, hs: seq<Group>, key: Bytes, value: Bytes)
    requires AllWellFormed(gs) && AllWellFormed(hs) && multiset(gs) == multiset(hs)
    ensures ParseSet(["SET", key, value] + AllTokens(gs)) == ParseSet(["SET", key, value] + AllTokens(hs))
  {
    ScanGroups(gs, NO_OPTIONS);
    ScanGroups(hs, NO_OPTIONS);
    Permuted(gs, hs, NO_OPTIONS);
    assert (["SET", key, value] + AllTokens(gs))[3..] == AllTokens(gs);
    assert (["SET", key, value] + AllTokens(hs))[3..] == AllTokens(hs);
  }

  // ----- What they parse to -----

  function Conditions(gs: seq<Group>): seq<SetCondition>
    requires AllWellFormed(gs)
  {
    if gs == [] then [] else AsSeq(Condition(gs[0])) + Conditions(gs[1..])
  }

  function Expiries(gs: seq<Group>): seq<SetExpiry>
    requires AllWellFormed(gs)
  {
    if gs == [] then [] else AsSeq(Expiry(gs[0])) + Expiries(gs[1..])
  }

  function AsSeq<T>(o: Option<T>): seq<T> {
    if o.Some? then [o.value] else []
  }

  lemma ApplyMeaning(g: Group, acc: SetOptions)
    requires WellFormed(g)
    ensures var r := Apply(g, acc);
      if |AsSeq(acc.condition) + AsSeq(Condition(g))| > 1 || |AsSeq(acc.expiry) + AsSeq(Expiry(g))| > 1
      then r == Rejected(SyntaxError)
      else
        && r.Parsed?
        && AsSeq(r.value.condition) == AsSeq(acc.condition) + AsSeq(Condition(g))
        && AsSeq(r.value.expiry) == AsSeq(acc.expiry) + AsSeq(Expiry(g))
        && r.value.get == (acc.get || g == ReturnOld)
  {
  }

  /** After `acc`, the options supply exactly their own condition and expiry, or there is one too many. */
  lemma {:induction false} ApplyAllMeaning(gs: seq<Group>, acc: SetOptions)
    requires AllWellFormed(gs)
    ensures var r := ApplyAll(gs, acc);
      if |AsSeq(acc.condition) + Conditions(gs)| > 1 || |AsSeq(acc.expiry) + Expiries(gs)| > 1
      then r == Rejected(SyntaxError)
      else
        && r.Parsed?
        && AsSeq(r.value.condition) == AsSeq(acc.condition) + Conditions(gs)
        && AsSeq(r.value.expiry) == AsSeq(acc.expiry) + Expiries(gs)
        && r.value.get == (acc.get || ReturnOld in gs)
  {
    if gs != [] {
      var first := Apply(gs[0], acc);
      ApplyMeaning(gs[0], acc);
      assert ReturnOld in gs <==> gs[0] == ReturnOld || ReturnOld in gs[1..];
      if first.Parsed? {
        ApplyAllMeaning(gs[1..], first.value);
        Associate(AsSeq(acc.condition), AsSeq(Condition(gs[0])), Conditions(gs[1..]));
        Associate(AsSeq(acc.expiry), AsSeq(Expiry(gs[0])), Expiries(gs[1..]));
      }
    }
  }

  /** Two conditions or two expiries are a syntax error; otherwise SET gets exactly what the options say. */
  lemma SetMeaning(gs: seq<Group>, key: Bytes, value: Bytes)
    requires AllWellFormed(gs)
    ensures var r := ParseSet(["SET", key, value] + AllTokens(gs));
      if |Conditions(gs)| > 1 || |Expiries(gs)| > 1 then r == Rejected(SyntaxError)
      else
        && r.Parsed? && r.value.Set? && r.value.key == key && r.value.value == value
        && AsSeq(r.value.options.condition) == Conditions(gs)
        && AsSeq(r.value.options.expiry) == Expiries(gs)
        && r.value.options.get == (ReturnOld in gs)
  {
    ScanGroups(gs, NO_OPTIONS);
    ApplyAllMeaning(gs, NO_OPTIONS);
    assert (["SET", key, value] + AllTokens(gs))[3..] == AllTokens(gs);
  }

  /** Conversely, whatever tokens SET accepts are the tokens of some well-formed options. */
  lemma {:induction false} AcceptedOptionsAreGroups(tokens: seq<Bytes>, acc: SetOptions) returns (gs: seq<Group>)
    requires ScanOptions(tokens, acc).Parsed?
    ensures AllWellFormed(gs) && AllTokens(gs) == tokens
    decreases |tokens|
  {
    gs := [];
    if tokens != [] {
      var g, left, options := SplitFirst(tokens, acc);
      var rest := AcceptedOptionsAreGroups(left, options);
      gs := ConsGroup(g, rest);
    }
  }

  lemma SplitFirst(tokens: seq<Bytes>, acc: SetOptions) returns (g: Group, left: seq<Bytes>, options: SetOptions)
    requires tokens != [] && ScanOptions(tokens, acc).Parsed?
    ensures WellFormed(g) && tokens == Tokens(g) + left
    ensures ScanOptions(left, options).Parsed?
  {
    var n := ScanOne(tokens, acc).value.1;
    left, options := tokens[n..], ScanOne(tokens, acc).value.0;
    g := FirstGroup(tokens, acc);
    assert tokens == tokens[..n] + tokens[n..];
  }

  lemma ConsGroup(g: Group, rest: seq<Group>) returns (gs: seq<Group>)
    requires WellFormed(g) && AllWellFormed(rest)
    ensures AllWellFormed(gs) && AllTokens(gs) == Tokens(g) + AllTokens(rest)
  {
    gs := [g] + rest;
    assert gs[1..] == rest;
  }

  lemma FirstGroup(tokens: seq<Bytes>, acc: SetOptions) returns (g: Group)
    requires tokens != [] && ScanOne(tokens, acc).Parsed?
    ensures WellFormed(g) && Tokens(g) == tokens[..ScanOne(tokens, acc).value.1]
  {
    if tokens[0] == "GET" { g := ReturnOld; }
    else if tokens[0] == "NX" { g := Nx; }
    else if tokens[0] == "XX" { g := Xx; }
    else if tokens[0] == "KEEPTTL" { g := Keep; }
    else if tokens[0] == "IFEQ" { g := IfEqual(tokens[1]); }
    else if tokens[0] == "IFNE" { g := IfNotEqual(tokens[1]); }
    else if tokens[0] == "IFDEQ" { g := IfDigest(tokens[1]); }
    else if tokens[0] == "IFDNE" { g := IfNotDigest(tokens[1]); }
    else if tokens[0] == "EX" { g := Seconds(tokens[1]); }
    else if tokens[0] == "PX" { g := Millis(tokens[1]); }
    else if tokens[0] == "EXAT" { g := AtSeconds(tokens[1]); }
    else { g := AtMillis(tokens[1]); }
  }
}
