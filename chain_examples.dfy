/** Worked chain-approval cases, each proved from the definitions in Chains. */
module ChainExamples {
  import opened Wrappers
  import Text
  import Chains
  import Numbers

  /** Required ["eip155:1", "eip155:999999"] with 999999 unknown and optional
      ["eip155:137"] approve [1, 137], in that order. */
  lemma RequiredBeforeOptionalExample(registry: Chains.Registry)
    requires 1 in registry && 137 in registry && 999999 !in registry
    ensures Chains.ResolveApprovedChainIds(["eip155:1", "eip155:999999"], ["eip155:137"], 1, registry) == [1, 137]
  {
    ChainIdOne();
    ChainIdUnknown();
    ChainIdPolygon();
    ThreeCandidates("eip155:1", "eip155:999999", "eip155:137", 1, 999999, 137, registry);
  }

  /** Deduplication happens on the raw strings, before parsing: "eip155:1" and
      "eip155:01" are distinct candidates that both name chain 1, so chain 1 is
      approved twice. */
  lemma DedupBeforeParsingExample(registry: Chains.Registry)
    requires 1 in registry
    ensures Chains.ResolveApprovedChainIds(["eip155:1", "eip155:01"], [], 1, registry) == [1, 1]
  {
    ChainIdOne();
    ChainIdOneWithLeadingZero();
    TwoCandidates("eip155:1", "eip155:01", 1, 1, registry);
  }

  lemma ThreeCandidates(a: string, b: string, c: string, x: int, y: int, z: int, registry: Chains.Registry)
    requires a != b && a != c && b != c
    requires Chains.ExtractChainId(Some(a)) == Some(x)
    requires Chains.ExtractChainId(Some(b)) == Some(y)
    requires Chains.ExtractChainId(Some(c)) == Some(z)
    requires x in registry && y !in registry && z in registry
    ensures Chains.ResolveApprovedChainIds([a, b], [c], 1, registry) == [x, z]
  {
    var candidates := [a, b] + [c];
    assert candidates == [a, b, c];
    Chains.DedupOfDistinct(candidates);
    assert candidates[1..] == [b, c] && [b, c][1..] == [c];
    assert Chains.ParsedChainIds([c]) == [z];
    assert Chains.ParsedChainIds([b, c]) == [y, z];
    var parsed := Chains.ParsedChainIds(candidates);
    assert parsed == [x, y, z];
    assert parsed[1..] == [y, z] && [y, z][1..] == [z];
    assert Chains.ResolvableIds([z], registry) == [z];
    assert Chains.ResolvableIds([y, z], registry) == [z];
  }

  lemma TwoCandidates(a: string, b: string, x: int, y: int, registry: Chains.Registry)
    requires a != b
    requires Chains.ExtractChainId(Some(a)) == Some(x)
    requires Chains.ExtractChainId(Some(b)) == Some(y)
    requires x in registry && y in registry
    ensures Chains.ResolveApprovedChainIds([a, b], [], 1, registry) == [x, y]
  {
    var candidates := [a, b] + [];
    assert candidates == [a, b];
    Chains.DedupOfDistinct(candidates);
    assert candidates[1..] == [b];
    assert Chains.ParsedChainIds([b]) == [y];
    var parsed := Chains.ParsedChainIds(candidates);
    assert parsed == [x, y];
    assert parsed[1..] == [y];
    assert Chains.ResolvableIds([y], registry) == [y];
  }

  lemma ChainIdOne()
    ensures Chains.ExtractChainId(Some("eip155:1")) == Some(1)
  {
    Chains.ExtractChainIdAt("eip155:1", 1) by {
      assert "eip155:1"[7..] == "1" && "1"[..0] == "";
    }
  }

  lemma ChainIdOneWithLeadingZero()
    ensures Chains.ExtractChainId(Some("eip155:01")) == Some(1)
  {
    var s := "eip155:01";
    assert s[7..] == "01" && "01"[..1] == "0" && "0"[..0] == "";
    Chains.ExtractChainIdAt(s, 1);
  }

  lemma ChainIdPolygon()
    ensures Chains.ExtractChainId(Some("eip155:137")) == Some(137)
  {
    var s := "eip155:137";
    assert s[7..] == "137" && "137"[..2] == "13" && "13"[..1] == "1" && "1"[..0] == "";
    Chains.ExtractChainIdAt(s, 137);
  }

  lemma ChainIdUnknown()
    ensures Chains.ExtractChainId(Some("eip155:999999")) == Some(999999)
  {
    var s := "eip155:999999";
    assert s[7..] == "999999";
    assert "999999"[..5] == "99999" && "99999"[..4] == "9999" && "9999"[..3] == "999";
    assert "999"[..2] == "99" && "99"[..1] == "9" && "9"[..0] == "";
    Chains.ExtractChainIdAt(s, 999999);
  }

  /** 2^53 + 1 is not a double: `Number` rounds it to 2^53, so the chain id is 2^53. */
  lemma ChainIdBeyondExactRange()
    ensures Chains.ExtractChainId(Some("eip155:9007199254740993")) == Some(9007199254740992)
  {
    var s := "eip155:9007199254740993";
    assert s[..7] == "eip155:" && s[7..] == "9007199254740993";
    DecimalValueBeyondExactRange();
    Numbers.RoundsPastSignificand();
    Chains.ExtractChainIdAccepts(s);
  }

  lemma DecimalValueBeyondExactRange()
    ensures Text.IsDigits("9007199254740993") && Text.DecimalValue("9007199254740993") == 9007199254740993
  {
    var p0 := "";
    var p1 := p0 + ['9'];
    Text.DecimalValueSnoc(p0, '9');
    var p2 := p1 + ['0'];
    Text.DecimalValueSnoc(p1, '0');
    var p3 := p2 + ['0'];
    Text.DecimalValueSnoc(p2, '0');
    var p4 := p3 + ['7'];
    Text.DecimalValueSnoc(p3, '7');
    var p5 := p4 + ['1'];
    Text.DecimalValueSnoc(p4, '1');
    var p6 := p5 + ['9'];
    Text.DecimalValueSnoc(p5, '9');
    var p7 := p6 + ['9'];
    Text.DecimalValueSnoc(p6, '9');
    var p8 := p7 + ['2'];
    Text.DecimalValueSnoc(p7, '2');
    var p9 := p8 + ['5'];
    Text.DecimalValueSnoc(p8, '5');
    var p10 := p9 + ['4'];
    Text.DecimalValueSnoc(p9, '4');
    var p11 := p10 + ['7'];
    Text.DecimalValueSnoc(p10, '7');
    var p12 := p11 + ['4'];
    Text.DecimalValueSnoc(p11, '4');
    var p13 := p12 + ['0'];
    Text.DecimalValueSnoc(p12, '0');
    var p14 := p13 + ['9'];
    Text.DecimalValueSnoc(p13, '9');
    var p15 := p14 + ['9'];
    Text.DecimalValueSnoc(p14, '9');
    var p16 := p15 + ['3'];
    Text.DecimalValueSnoc(p15, '3');
    assert p16 == "9007199254740993";
  }
}
