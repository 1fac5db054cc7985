/** CAIP-2 chain ids of the `eip155` namespace and the selection of the chains a
    session is approved for. */
module Chains {
  import opened Wrappers
  import Text
  import Numbers

  /** The chain registry: for each known chain id whose default RPC entry lists HTTP
      endpoints, that list of URLs (possibly empty). */
  type Registry = map<int, seq<string>>

  /** `Number(s)` when it is a finite integer, for the digit strings this model covers:
      the double nearest to the decimal value (`""` is 0 and leading zeros are ignored,
      so "01" is 1), exact up to 2^53; `Infinity`, which `Number.isInteger` refuses,
      is `None`. */
  function IntegerValue(s: string): (r: Option<int>)
    ensures !Text.IsDigits(s) ==> r == None
    ensures Text.IsDigits(s) && Text.DecimalValue(s) <= Numbers.SIGNIFICAND_LIMIT ==> r == Some(Text.DecimalValue(s))
    ensures Text.IsDigits(s) ==> (r.Some? <==> Numbers.NearestDouble(Text.DecimalValue(s)).Some?)
    ensures r.Some? ==> r.value == Numbers.NearestDouble(Text.DecimalValue(s)).value
  {
    if !Text.IsDigits(s) then None
    else
      match Numbers.NearestDouble(Text.DecimalValue(s))
      case Some(x) => Some(x)
      case None => None
  }

  /** `extractChainId`: the positive integer reference of an `eip155:<reference>` chain
      id; `undefined`, `""`, any other namespace, any other number of `:`-separated parts
      and any reference that is not a positive integer give `undefined`. */
  function ExtractChainId(chain: Option<string>): (r: Option<int>)
    ensures r.Some? ==> r.value > 0
  {
    if !Truthy(chain) then None
    else
      var parts := Text.Split(chain.value, ':');
      if |parts| != 2 || parts[0] != "eip155" then None
      else
        match IntegerValue(parts[1])
        case None => None
        case Some(n) => if n <= 0 then None else Some(n)
  }

  /** The accepted strings are exactly "eip155:" followed by a digit string of
      positive value whose nearest double is finite, and the result is that double. */
  lemma ExtractChainIdAccepts(s: string)
    ensures ExtractChainId(Some(s)).Some? <==>
      && |s| > 7 && s[..7] == "eip155:" && Text.IsDigits(s[7..]) && Text.DecimalValue(s[7..]) > 0
      && Numbers.NearestDouble(Text.DecimalValue(s[7..])).Some?
    ensures ExtractChainId(Some(s)).Some? ==>
      ExtractChainId(Some(s)).value == Numbers.NearestDouble(Text.DecimalValue(s[7..])).value
  {
    var parts := Text.Split(s, ':');
    if |s| > 7 && s[..7] == "eip155:" && Text.IsDigits(s[7..]) {
      var d := s[7..];
      assert ':' !in d by {
        forall i | 0 <= i < |d| ensures d[i] != ':' { assert Text.IsDigit(d[i]); }
      }
      assert s == "eip155" + [':'] + d;
      Text.SplitAtFirstSeparator("eip155", ':', d);
      Text.SplitWithoutSeparator(d, ':');
      assert parts == ["eip155", d];
    }
    if |parts| == 2 && parts[0] == "eip155" {
      assert parts[1..] == [parts[1]];
      assert Text.Join(parts[1..], ':') == parts[1];
      assert s == parts[0] + [':'] + parts[1];
      assert s[7..] == parts[1];
      assert s[..7] == "eip155:";
    }
  }

  /** A reference up to 2^53 parses to its exact value. */
  lemma ExtractChainIdAt(s: string, n: nat)
    requires |s| > 7 && s[..7] == "eip155:" && Text.IsDigits(s[7..]) && Text.DecimalValue(s[7..]) == n
    requires 0 < n <= Numbers.SIGNIFICAND_LIMIT
    ensures ExtractChainId(Some(s)) == Some(n)
  {
    ExtractChainIdAccepts(s);
  }

  /** A reference of value 2^1024 or more is `Infinity` to `Number`, so no chain id. */
  lemma ExtractChainIdOverflowRejected(s: string)
    requires |s| > 7 && s[..7] == "eip155:" && Text.IsDigits(s[7..])
    requires Text.DecimalValue(s[7..]) >= Numbers.SIGNIFICAND_LIMIT * Numbers.Pow2(Numbers.TOP_EXPONENT)
    ensures ExtractChainId(Some(s)) == None
  {
    Numbers.NearestDoubleOverflows(Text.DecimalValue(s[7..]));
    ExtractChainIdAccepts(s);
  }

  /** Formatting a chain id up to 2^53 as a CAIP-2 id and parsing it back is the
      identity. */
  lemma ExtractChainIdRoundTrip(n: nat)
    requires 0 < n <= Numbers.SIGNIFICAND_LIMIT
    ensures ExtractChainId(Some("eip155:" + Text.NatToString(n))) == Some(n)
  {
    var s := "eip155:" + Text.NatToString(n);
    assert s[..7] == "eip155:" && s[7..] == Text.NatToString(n);
    ExtractChainIdAt(s, n);
  }

  predicate NoDuplicates(s: seq<string>) {
    forall i, j :: 0 <= i < j < |s| ==> s[i] != s[j]
  }

  /** The position of the first occurrence of `x` in `s`. */
  function FirstIndex(s: seq<string>, x: string): (k: nat)
    requires x in s
    ensures k < |s| && s[k] == x
    ensures forall j :: 0 <= j < k ==> s[j] != x
  {
    if s[0] == x then 0 else 1 + FirstIndex(s[1..], x)
  }

  /** `[...new Set(s)]`: the distinct elements of `s`, in the order of their first
      occurrence (DedupKeepsFirstSeenOrder). */
  function Dedup(s: seq<string>): (r: seq<string>)
    ensures forall x :: x in r <==> x in s
    ensures NoDuplicates(r)
    decreases |s|
  {
    if |s| == 0 then []
    else
      var d := Dedup(s[..|s| - 1]);
      if s[|s| - 1] in d then d else d + [s[|s| - 1]]
  }

  lemma {:induction false} DedupKeepsFirstSeenOrder(s: seq<string>)
    ensures forall i, j :: 0 <= i < j < |Dedup(s)| ==> FirstIndex(s, Dedup(s)[i]) < FirstIndex(s, Dedup(s)[j])
    decreases |s|
  {
    if |s| > 0 {
      var init := s[..|s| - 1];
      var x := s[|s| - 1];
      var d := Dedup(init);
      DedupKeepsFirstSeenOrder(init);
      forall y | y in init ensures FirstIndex(s, y) == FirstIndex(init, y) {
        var k := FirstIndex(init, y);
        assert s[k] == y;
        assert forall j :: 0 <= j < k ==> s[j] == init[j];
      }
      if x !in d {
        var r := d + [x];
        assert FirstIndex(s, x) == |s| - 1;
        assert forall i :: 0 <= i < |d| ==> r[i] == d[i] && r[i] in init;
      }
    }
  }

  /** The ids `extractChainId` accepts, in order; rejected strings are dropped. */
  function ParsedChainIds(raw: seq<string>): (r: seq<int>)
    ensures forall i :: 0 <= i < |r| ==> r[i] > 0
    decreases |raw|
  {
    if |raw| == 0 then []
    else
      var rest := ParsedChainIds(raw[1..]);
      match ExtractChainId(Some(raw[0]))
      case Some(n) => [n] + rest
      case None => rest
  }

  lemma {:induction false} ParsedChainIdsMembers(raw: seq<string>)
    ensures forall x :: x in ParsedChainIds(raw) <==> exists c :: c in raw && ExtractChainId(Some(c)) == Some(x)
    decreases |raw|
  {
    if |raw| > 0 {
      ParsedChainIdsMembers(raw[1..]);
      assert forall c :: c in raw <==> c == raw[0] || c in raw[1..];
    }
  }

  /** The ids the registry knows, in order. */
  function ResolvableIds(ids: seq<int>, registry: Registry): (r: seq<int>)
    ensures forall x :: x in r <==> x in ids && x in registry
    ensures |r| <= |ids|
    decreases |ids|
  {
    if |ids| == 0 then []
    else
      var rest := ResolvableIds(ids[1..], registry);
      if ids[0] in registry then [ids[0]] + rest else rest
  }

  /** A candidate string contributes a chain: it parses, and the registry knows the id. */
  predicate Qualifies(c: string, registry: Registry) {
    ExtractChainId(Some(c)).Some? && ExtractChainId(Some(c)).value in registry
  }

  /** Parsing keeps the candidates' order: it distributes over concatenation. */
  lemma {:induction false} ParsedChainIdsAppend(a: seq<string>, b: seq<string>)
    ensures ParsedChainIds(a + b) == ParsedChainIds(a) + ParsedChainIds(b)
    decreases |a|
  {
    if |a| == 0 {
      assert a + b == b;
    } else {
      assert (a + b)[1..] == a[1..] + b;
      ParsedChainIdsAppend(a[1..], b);
    }
  }

  /** The registry filter keeps the ids' order: it distributes over concatenation. */
  lemma {:induction false} ResolvableIdsAppend(a: seq<int>, b: seq<int>, registry: Registry)
    ensures ResolvableIds(a + b, registry) == ResolvableIds(a, registry) + ResolvableIds(b, registry)
    decreases |a|
  {
    if |a| == 0 {
      assert a + b == b;
    } else {
      assert (a + b)[1..] == a[1..] + b;
      ResolvableIdsAppend(a[1..], b, registry);
    }
  }

  /** A single candidate contributes its id exactly when it qualifies. */
  lemma CandidateFilterSingle(c: string, registry: Registry)
    ensures ResolvableIds(ParsedChainIds([c]), registry) ==
      if Qualifies(c, registry) then [ExtractChainId(Some(c)).value] else []
  {
    assert [c][1..] == [];
    match ExtractChainId(Some(c))
    case Some(n) =>
      assert ParsedChainIds([c]) == [n];
      assert [n][1..] == [];
    case None =>
  }

  /** Together with CandidateFilterSingle this pins the filter down: the approved ids of a
      concatenation are those of its parts, in order. */
  lemma CandidateFilterInOrder(a: seq<string>, b: seq<string>, registry: Registry)
    ensures ResolvableIds(ParsedChainIds(a + b), registry) ==
      ResolvableIds(ParsedChainIds(a), registry) + ResolvableIds(ParsedChainIds(b), registry)
  {
    ParsedChainIdsAppend(a, b);
    ResolvableIdsAppend(ParsedChainIds(a), ParsedChainIds(b), registry);
  }

  /** The first id the filter keeps is that of the first qualifying candidate. */
  lemma {:induction false} FirstKeptQualifies(d: seq<string>, registry: Registry)
    requires |ResolvableIds(ParsedChainIds(d), registry)| > 0
    ensures exists i ::
      && 0 <= i < |d| && Qualifies(d[i], registry)
      && ResolvableIds(ParsedChainIds(d), registry)[0] == ExtractChainId(Some(d[i])).value
      && (forall j :: 0 <= j < i ==> !Qualifies(d[j], registry))
    decreases |d|
  {
    var rest := d[1..];
    assert d == [d[0]] + rest;
    CandidateFilterInOrder([d[0]], rest, registry);
    CandidateFilterSingle(d[0], registry);
    if !Qualifies(d[0], registry) {
      FirstKeptQualifies(rest, registry);
      var i :| 0 <= i < |rest| && Qualifies(rest[i], registry)
        && ResolvableIds(ParsedChainIds(rest), registry)[0] == ExtractChainId(Some(rest[i])).value
        && (forall j :: 0 <= j < i ==> !Qualifies(rest[j], registry));
      assert d[i + 1] == rest[i];
      assert forall j :: 0 < j < i + 1 ==> d[j] == rest[j - 1];
    } else {
      assert d[0] == d[0];
    }
  }

  /** Candidate chain strings: required before optional, duplicates of the same raw
      string dropped, then parsed and filtered by the registry. */
  function SupportedChainIds(required: seq<string>, optional: seq<string>, registry: Registry): seq<int> {
    ResolvableIds(ParsedChainIds(Dedup(required + optional)), registry)
  }

  /** `resolveApprovedChainIds`. A namespace that is absent or whose `chains` is not an
      array contributes the empty sequence. */
  function ResolveApprovedChainIds(required: seq<string>, optional: seq<string>, fallback: int, registry: Registry): (r: seq<int>)
    ensures forall i :: 0 <= i < |r| ==> r[i] in registry
    ensures |r| == 0 <==> |SupportedChainIds(required, optional, registry)| == 0 && fallback !in registry
  {
    var supported := SupportedChainIds(required, optional, registry);
    if |supported| > 0 then supported
    else if fallback in registry then [fallback]
    else []
  }

  /** Every approved id is resolvable and positive (the fallback, the pending
      connection's default chain, is positive), and an id is approved exactly when some
      candidate string names it and the registry knows it, or when no candidate
      qualifies and it is the resolvable fallback. */
  lemma ApprovedChainIdsSound(required: seq<string>, optional: seq<string>, fallback: int, registry: Registry)
    requires fallback > 0
    ensures forall i :: 0 <= i < |ResolveApprovedChainIds(required, optional, fallback, registry)| ==>
      var id := ResolveApprovedChainIds(required, optional, fallback, registry)[i];
      id > 0 && id in registry
    ensures forall x :: x in ResolveApprovedChainIds(required, optional, fallback, registry) <==>
      ((exists c :: c in required + optional && ExtractChainId(Some(c)) == Some(x)) && x in registry)
      || (|SupportedChainIds(required, optional, registry)| == 0 && x == fallback && fallback in registry)
  {
    var candidates := required + optional;
    var parsed := ParsedChainIds(Dedup(candidates));
    ParsedChainIdsMembers(Dedup(candidates));
    forall x ensures x in parsed <==> exists c :: c in candidates && ExtractChainId(Some(c)) == Some(x) {
      if x in parsed {
        var c :| c in Dedup(candidates) && ExtractChainId(Some(c)) == Some(x);
        assert c in candidates;
      }
      if c :| c in candidates && ExtractChainId(Some(c)) == Some(x) {
        assert c in Dedup(candidates);
      }
    }
    var r := ResolveApprovedChainIds(required, optional, fallback, registry);
    forall i | 0 <= i < |r| ensures r[i] > 0 && r[i] in registry {
      assert r[i] in r;
    }
  }

  /** The session's default chain, the first approved id, is the id of the first-seen
      candidate that qualifies: every candidate seen before it does not. */
  lemma DefaultChainIsFirstQualifying(required: seq<string>, optional: seq<string>, fallback: int, registry: Registry)
    requires |SupportedChainIds(required, optional, registry)| > 0
    ensures var candidates := required + optional;
      exists c ::
        && c in candidates && Qualifies(c, registry)
        && ResolveApprovedChainIds(required, optional, fallback, registry)[0] == ExtractChainId(Some(c)).value
        && (forall e :: e in candidates && FirstIndex(candidates, e) < FirstIndex(candidates, c) ==> !Qualifies(e, registry))
  {
    var candidates := required + optional;
    var d := Dedup(candidates);
    FirstKeptQualifies(d, registry);
    var i :| 0 <= i < |d| && Qualifies(d[i], registry)
      && ResolvableIds(ParsedChainIds(d), registry)[0] == ExtractChainId(Some(d[i])).value
      && (forall j :: 0 <= j < i ==> !Qualifies(d[j], registry));
    SeenBeforeDoesNotQualify(candidates, registry, i);
    assert d[i] in candidates;
  }

  /** Candidates first seen before the i-th distinct candidate are among the distinct
      candidates before it. */
  lemma SeenBeforeDoesNotQualify(candidates: seq<string>, registry: Registry, i: nat)
    requires i < |Dedup(candidates)|
    requires forall j :: 0 <= j < i ==> !Qualifies(Dedup(candidates)[j], registry)
    ensures forall e :: e in candidates && FirstIndex(candidates, e) < FirstIndex(candidates, Dedup(candidates)[i]) ==>
      !Qualifies(e, registry)
  {
    var d := Dedup(candidates);
    DedupKeepsFirstSeenOrder(candidates);
    forall e | e in candidates && FirstIndex(candidates, e) < FirstIndex(candidates, d[i])
      ensures !Qualifies(e, registry)
    {
      var j := FirstIndex(d, e);
    }
  }

  lemma {:induction false} DedupOfDistinct(s: seq<string>)
    requires NoDuplicates(s)
    ensures Dedup(s) == s
    decreases |s|
  {
    if |s| > 0 {
      var init := s[..|s| - 1];
      DedupOfDistinct(init);
      assert s[|s| - 1] !in init;
      assert init + [s[|s| - 1]] == s;
    }
  }
}
