/** Properties of the validation rules that relate several calls or whole
    record lists: first-versus-later occurrence of an address, which
    underlying addresses are reported, and the worked examples of the naming convention. */
module TokenDetailsProperties {
  import opened Lists
  import opened Strings
  import opened Registry
  import opened TokenDetails

  // ---------------------------------------------------------------------
  // Duplicate addresses over a list processed in order.
  // ---------------------------------------------------------------------

  /** Record `i` gets a duplicate diagnostic exactly when an earlier record
      has the same address up to case: the first occurrence never does,
      every later one does. */
  lemma DuplicateRuleAt(ts: seq<Token>, i: nat)
    requires i < |ts|
    ensures DuplicateRule(Seen(ts[..i]), ts[i]) != [] <==>
      exists j :: 0 <= j < i && SameAddress(ts[j].address, ts[i].address)
  {
    SeenMembers(ts[..i], ToLower(ts[i].address));
    if exists j :: 0 <= j < i && SameAddress(ts[j].address, ts[i].address) {
      var j :| 0 <= j < i && SameAddress(ts[j].address, ts[i].address);
      assert ts[..i][j] == ts[j];
    }
    if exists j :: 0 <= j < |ts[..i]| && ToLower(ts[..i][j].address) == ToLower(ts[i].address) {
      var j :| 0 <= j < |ts[..i]| && ToLower(ts[..i][j].address) == ToLower(ts[i].address);
      assert ts[j] == ts[..i][j];
    }
  }

  /** A list yields one duplicate diagnostic per record beyond the first of
      each case-insensitive address: records minus distinct addresses. */
  lemma {:induction false} DuplicatePassCount(ts: seq<Token>)
    ensures |DuplicatePass(ts)| + |Seen(ts)| == |ts|
  {
    if ts != [] {
      var init := ts[..|ts| - 1];
      DuplicatePassCount(init);
      var a := ToLower(ts[|ts| - 1].address);
      if a in Seen(init) {
        assert Seen(ts) == Seen(init);
      } else {
        assert |Seen(ts)| == |Seen(init)| + 1;
      }
    }
  }

  /** A list whose addresses are pairwise distinct up to case yields no
      duplicate diagnostic. */
  lemma {:induction false} DuplicatePassDistinct(ts: seq<Token>)
    requires forall i, j :: 0 <= i < j < |ts| ==> !SameAddress(ts[i].address, ts[j].address)
    ensures DuplicatePass(ts) == []
  {
    if ts != [] {
      var n := |ts| - 1;
      DuplicatePassDistinct(ts[..n]);
      DuplicateRuleAt(ts, n);
    }
  }

  /** `0xAA` followed by `0xaa`: exactly one diagnostic, naming the second
      address as written. */
  lemma DuplicateExample(first: Token, second: Token)
    requires first.address == "0xAA" && second.address == "0xaa"
    ensures DuplicatePass([first, second]) == [DuplicateAddress("0xaa")]
  {
    var ts := [first, second];
    assert ts[..1] == [first] && [first][..0] == [];
    assert ToLower("0xAA") == "0xaa" by {
      assert LowerChar('0') == '0' && LowerChar('x') == 'x' && LowerChar('A') == 'a';
    }
    assert ToLower("0xaa") == "0xaa";
  }

  // ---------------------------------------------------------------------
  // Underlying lookups and the derived name.
  // ---------------------------------------------------------------------

  /** The underlying addresses no record matches, in declared order. */
  function Unresolved(tokens: seq<Token>, underlying: seq<string>): seq<string>
  {
    Filter(underlying, NotFoundIn(tokens))
  }

  function NotFoundIn(tokens: seq<Token>): string -> bool
  {
    (u: string) => FindToken(tokens, u).None?
  }

  /** The missing-underlying diagnostics are one per unresolved address, in
      declared order, each naming the record and the address. */
  lemma {:induction false} MissingUnderlyingsExactly(name: string, tokens: seq<Token>, underlying: seq<string>)
    ensures var r := MissingUnderlyings(name, tokens, underlying);
      var w := Unresolved(tokens, underlying);
      |r| == |w| && forall k :: 0 <= k < |r| ==> r[k] == MissingUnderlying(name, w[k])
  {
    if underlying != [] {
      var n := |underlying| - 1;
      var u := underlying[n];
      var init := MissingUnderlyings(name, tokens, underlying[..n]);
      var last := if FindToken(tokens, u).None? then [MissingUnderlying(name, u)] else [];
      MissingUnderlyingsExactly(name, tokens, underlying[..n]);
      assert MissingUnderlyings(name, tokens, underlying) == init + last;
      assert underlying == underlying[..n] + [u];
      FilterConcat(underlying[..n], [u], NotFoundIn(tokens));
      var winit := Unresolved(tokens, underlying[..n]);
      var wlast := if FindToken(tokens, u).None? then [u] else [];
      assert Filter([u], NotFoundIn(tokens)) == wlast;
      var r := init + last;
      var w := winit + wlast;
      assert Unresolved(tokens, underlying) == w;
      forall k | 0 <= k < |r| ensures r[k] == MissingUnderlying(name, w[k]) {
        if k < |init| {
          assert r[k] == init[k] && w[k] == winit[k];
        } else {
          assert r[k] == last[0] && w[k] == wlast[0];
        }
      }
    }
  }

  /** Every unresolved address is looked up in vain: no record has it, up to
      case. */
  lemma UnresolvedMeansNoRecord(tokens: seq<Token>, underlying: seq<string>, u: string)
    ensures u in Unresolved(tokens, underlying) <==>
      u in underlying && forall k :: 0 <= k < |tokens| ==> !SameAddress(tokens[k].address, u)
  {
  }

  /** When no underlying symbol contains `-`, the derived name splits back
      into the underlying symbols, in declared order. */
  lemma DerivedNameSplits(tokens: seq<Token>, underlying: seq<string>)
    requires underlying != []
    requires forall i :: 0 <= i < |underlying| ==> '-' !in UnderlyingSymbols(tokens, underlying)[i]
    ensures Split(DerivedName(tokens, underlying), '-') == UnderlyingSymbols(tokens, underlying)
  {
    SplitJoin(UnderlyingSymbols(tokens, underlying), '-');
  }

  /** The name rule on a composite record: one diagnostic per unresolved
      underlying address, plus one exactly when the name is none of the
      derived name, the on-chain name, the on-chain symbol and the
      protocol-prefixed derived name (and the record has a protocol). */
  lemma CompositeNameRule(token: Token, tokens: seq<Token>, protocols: seq<Protocol>,
                          onChainName: string, onChainSymbol: string)
    requires token.underlyingTokens.Some?
    ensures var us := token.underlyingTokens.value;
      var derived := DerivedName(tokens, us);
      var accepted := token.name == derived || token.name == onChainName || token.name == onChainSymbol
        || token.protocol.None? || token.name == PrefixText(protocols, token.protocol.value) + derived;
      |NameRule(token, tokens, protocols, onChainName, onChainSymbol)|
        == |Unresolved(tokens, us)| + (if accepted then 0 else 1)
  {
    MissingUnderlyingsExactly(token.name, tokens, token.underlyingTokens.value);
  }

  // ---------------------------------------------------------------------
  // Duplicate diagnostics of a whole chain run.
  // ---------------------------------------------------------------------

  /** A chain run reports one duplicate diagnostic per record beyond the
      first of each case-insensitive address, wherever the collaborators'
      and the other rules' diagnostics fall. */
  lemma ChainDuplicateCount(schemaDiagnostics: seq<string>, tokens: seq<Token>, protocols: seq<Protocol>,
                            reports: seq<Collaborators>)
    requires |reports| == |tokens|
    ensures |Filter(ChainDiagnostics(schemaDiagnostics, tokens, protocols, reports), IsDuplicate())|
      == |tokens| - |Seen(tokens)|
  {
    DuplicatePassCount(tokens);
  }

  // ---------------------------------------------------------------------
  // Worked examples.
  // ---------------------------------------------------------------------

  // The lemmas below take the example chain list as a parameter pinned by a
  // precondition, so that the verifier reasons about it step by step.

  function Wbera(): Token
  {
    Token("0xa1", "WBERA", "Wrapped Bera", 18, None, None, None, None)
  }

  function Honey(): Token
  {
    Token("0xb2", "HONEY", "Honey", 18, None, None, None, None)
  }

  /** A composite record over WBERA and HONEY. */
  function Island(name: string, protocol: Option<string>): Token
  {
    Token("0xc3", "KODIAK-ISLAND", name, 18, None, protocol, None, Some(["0xa1", "0xb2"]))
  }

  function Kodiak(): Protocol
  {
    Protocol("kodiak", "kdk")
  }

  /** Addresses are matched whatever their case; `0xd4` has no record. */
  lemma LookupsInExample(tokens: seq<Token>)
    requires tokens == [Wbera(), Honey()]
    ensures FindToken(tokens, "0xa1") == Some(Wbera())
    ensures FindToken(tokens, "0xb2") == Some(Honey())
    ensures FindToken(tokens, "0xB2") == Some(Honey())
    ensures FindToken(tokens, "0xd4") == None
  {
    assert ToLower("0xa1") == "0xa1";
    assert ToLower("0xb2") == "0xb2";
    assert ToLower("0xB2") == "0xb2";
    assert ToLower("0xd4") == "0xd4";
    assert "0xa1"[2] != "0xb2"[2] && "0xa1"[2] != "0xd4"[2] && "0xb2"[2] != "0xd4"[2];
    FindTokenFirst(tokens, "0xa1", 0);
    FindTokenFirst(tokens, "0xb2", 1);
    FindTokenFirst(tokens, "0xB2", 1);
  }

  lemma SymbolsInExample(tokens: seq<Token>)
    requires tokens == [Wbera(), Honey()]
    ensures UnderlyingSymbols(tokens, ["0xa1", "0xb2"]) == ["WBERA", "HONEY"]
  {
    var us := ["0xa1", "0xb2"];
    LookupsInExample(tokens);
    UnderlyingSymbolsStep(tokens, us, 0);
    UnderlyingSymbolsStep(tokens, us, 1);
    assert us[..2] == us && us[..0] == [];
  }

  lemma SymbolsWithPlaceholder(tokens: seq<Token>)
    requires tokens == [Wbera(), Honey()]
    ensures UnderlyingSymbols(tokens, ["0xa1", "0xd4"]) == ["WBERA", PLACEHOLDER_SYMBOL]
  {
    var us := ["0xa1", "0xd4"];
    LookupsInExample(tokens);
    UnderlyingSymbolsStep(tokens, us, 0);
    UnderlyingSymbolsStep(tokens, us, 1);
    assert us[..2] == us && us[..0] == [];
  }

  /** The spellings the examples below build by concatenation. */
  lemma ExampleSpellings()
    ensures "WBERA" + "-" + "HONEY" == "WBERA-HONEY"
    ensures "WBERA" + "-" + PLACEHOLDER_SYMBOL == "WBERA-FIX_MISSING_SYMBOL"
    ensures "kdk" + "WBERA-HONEY" == "kdkWBERA-HONEY"
    ensures UNKNOWN_PREFIX + "WBERA-HONEY" == "undefinedWBERA-HONEY"
  {
  }

  lemma JoinPair(a: string, b: string, sep: string)
    ensures Join([a, b], sep) == a + sep + b
  {
    assert [a, b][1..] == [b];
  }

  /** The underlying symbols joined by `-`. */
  lemma DerivedNameExample(tokens: seq<Token>)
    requires tokens == [Wbera(), Honey()]
    ensures DerivedName(tokens, ["0xa1", "0xb2"]) == "WBERA-HONEY"
  {
    SymbolsInExample(tokens);
    JoinPair("WBERA", "HONEY", "-");
    ExampleSpellings();
  }

  /** The placeholder stands for a missing underlying record. */
  lemma DerivedNameWithPlaceholder(tokens: seq<Token>)
    requires tokens == [Wbera(), Honey()]
    ensures DerivedName(tokens, ["0xa1", "0xd4"]) == "WBERA-FIX_MISSING_SYMBOL"
  {
    SymbolsWithPlaceholder(tokens);
    JoinPair("WBERA", PLACEHOLDER_SYMBOL, "-");
    ExampleSpellings();
  }

  /** A missing underlying record is reported exactly once. */
  lemma MissingUnderlyingExample(name: string, tokens: seq<Token>)
    requires tokens == [Wbera(), Honey()]
    ensures MissingUnderlyings(name, tokens, ["0xa1", "0xd4"]) == [MissingUnderlying(name, "0xd4")]
  {
    LookupsInExample(tokens);
    MissingUnderlyingsStep(name, tokens, ["0xa1", "0xd4"], 0);
    MissingUnderlyingsStep(name, tokens, ["0xa1", "0xd4"], 1);
    assert ["0xa1", "0xd4"][..2] == ["0xa1", "0xd4"] && ["0xa1", "0xd4"][..0] == [];
  }

  /** Both underlying records of the example island are found. */
  lemma IslandUnderlyingsFound(name: string, tokens: seq<Token>)
    requires tokens == [Wbera(), Honey()]
    ensures MissingUnderlyings(name, tokens, ["0xa1", "0xb2"]) == []
  {
    LookupsInExample(tokens);
    MissingUnderlyingsStep(name, tokens, ["0xa1", "0xb2"], 0);
    MissingUnderlyingsStep(name, tokens, ["0xa1", "0xb2"], 1);
    assert ["0xa1", "0xb2"][..2] == ["0xa1", "0xb2"] && ["0xa1", "0xb2"][..0] == [];
  }

  /** When every underlying record is found, a composite record's name
      rule is the verdict on its name alone. */
  lemma NameRuleAllFound(token: Token, tokens: seq<Token>, protocols: seq<Protocol>,
                         onChainName: string, onChainSymbol: string, derived: string)
    requires token.underlyingTokens.Some?
    requires MissingUnderlyings(token.name, tokens, token.underlyingTokens.value) == []
    requires DerivedName(tokens, token.underlyingTokens.value) == derived
    ensures NameRule(token, tokens, protocols, onChainName, onChainSymbol)
      == CompositeNameVerdict(token, derived, protocols, onChainName, onChainSymbol)
  {
    assert [] + CompositeNameVerdict(token, derived, protocols, onChainName, onChainSymbol)
      == CompositeNameVerdict(token, derived, protocols, onChainName, onChainSymbol);
  }

  /** The island's underlying records resolve to `WBERA-HONEY`, and none is
      missing. */
  lemma IslandDerivedName(token: Token, tokens: seq<Token>)
    requires tokens == [Wbera(), Honey()]
    requires token.underlyingTokens == Some(["0xa1", "0xb2"])
    ensures MissingUnderlyings(token.name, tokens, token.underlyingTokens.value) == []
    ensures DerivedName(tokens, token.underlyingTokens.value) == "WBERA-HONEY"
  {
    IslandUnderlyingsFound(token.name, tokens);
    DerivedNameExample(tokens);
  }

  /** A name equal to the derived name passes, even for a record whose
      protocol has a prefix. */
  lemma CompositeNameAccepted(tokens: seq<Token>, protocols: seq<Protocol>,
                              onChainName: string, onChainSymbol: string)
    requires tokens == [Wbera(), Honey()] && protocols == [Kodiak()]
    ensures NameRule(Island("WBERA-HONEY", Some("kodiak")), tokens, protocols, onChainName, onChainSymbol) == []
  {
    var token := Island("WBERA-HONEY", Some("kodiak"));
    IslandDerivedName(token, tokens);
    NameRuleAllFound(token, tokens, protocols, onChainName, onChainSymbol, "WBERA-HONEY");
  }

  /** A composite record without a protocol is never reported for its name,
      whatever the name and the on-chain values. */
  lemma NoProtocolFallback(tokens: seq<Token>, protocols: seq<Protocol>, name: string,
                           onChainName: string, onChainSymbol: string)
    requires tokens == [Wbera(), Honey()] && protocols == [Kodiak()]
    ensures NameRule(Island(name, None), tokens, protocols, onChainName, onChainSymbol) == []
  {
    var token := Island(name, None);
    IslandDerivedName(token, tokens);
    NameRuleAllFound(token, tokens, protocols, onChainName, onChainSymbol, "WBERA-HONEY");
  }

  /** So does the derived name behind the protocol's prefix. */
  lemma PrefixedCompositeNameAccepted(tokens: seq<Token>, protocols: seq<Protocol>,
                                      onChainName: string, onChainSymbol: string)
    requires tokens == [Wbera(), Honey()] && protocols == [Kodiak()]
    ensures NameRule(Island("kdkWBERA-HONEY", Some("kodiak")), tokens, protocols, onChainName, onChainSymbol) == []
  {
    var token := Island("kdkWBERA-HONEY", Some("kodiak"));
    IslandDerivedName(token, tokens);
    NameRuleAllFound(token, tokens, protocols, onChainName, onChainSymbol, "WBERA-HONEY");
    FindProtocolFirst(protocols, "kodiak", 0);
    ExampleSpellings();
  }

  /** Any other name is reported, with the prefixed derived name as the
      expectation. */
  lemma CompositeNameRejected(tokens: seq<Token>, protocols: seq<Protocol>,
                              onChainName: string, onChainSymbol: string)
    requires tokens == [Wbera(), Honey()] && protocols == [Kodiak()]
    requires onChainName != "WBERA-HONEY-V2" && onChainSymbol != "WBERA-HONEY-V2"
    ensures NameRule(Island("WBERA-HONEY-V2", Some("kodiak")), tokens, protocols, onChainName, onChainSymbol)
      == [CompositeNameMismatch("WBERA-HONEY-V2", "kdkWBERA-HONEY", "WBERA-HONEY")]
  {
    var token := Island("WBERA-HONEY-V2", Some("kodiak"));
    IslandDerivedName(token, tokens);
    NameRuleAllFound(token, tokens, protocols, onChainName, onChainSymbol, "WBERA-HONEY");
    FindProtocolFirst(protocols, "kodiak", 0);
    ExampleSpellings();
    var expected := PrefixText(protocols, "kodiak") + "WBERA-HONEY";
    assert token.name[0] != expected[0];
    assert |token.name| != |"WBERA-HONEY"|;
  }

  /** A protocol missing from the directory contributes the prefix
      `undefined` to the expectation. */
  lemma UnknownProtocolPrefix(tokens: seq<Token>, protocols: seq<Protocol>,
                              onChainName: string, onChainSymbol: string)
    requires tokens == [Wbera(), Honey()] && protocols == [Kodiak()]
    requires onChainName != "WBERA-HONEY-V2" && onChainSymbol != "WBERA-HONEY-V2"
    ensures NameRule(Island("WBERA-HONEY-V2", Some("unknown")), tokens, protocols, onChainName, onChainSymbol)
      == [CompositeNameMismatch("WBERA-HONEY-V2", "undefinedWBERA-HONEY", "WBERA-HONEY")]
  {
    var token := Island("WBERA-HONEY-V2", Some("unknown"));
    IslandDerivedName(token, tokens);
    NameRuleAllFound(token, tokens, protocols, onChainName, onChainSymbol, "WBERA-HONEY");
    assert protocols[0].id[0] != "unknown"[0];
    ExampleSpellings();
    var expected := PrefixText(protocols, "unknown") + "WBERA-HONEY";
    assert token.name[0] != expected[0];
    assert |token.name| != |"WBERA-HONEY"|;
  }

  /** Symbols are compared exactly: `Honey` is not `HONEY`. */
  lemma SymbolCaseMatters(token: Token)
    requires token.symbol == "Honey"
    ensures SymbolRule(token, "HONEY") == [SymbolMismatch("Honey", "HONEY")]
  {
    assert "Honey"[1] != "HONEY"[1];
  }

  /** A `bex` record whose mint URL lacks the pools prefix gets one
      diagnostic; a `kodiak` record must carry exactly the URL built from its
      own address. */
  lemma MintUrlExamples(token: Token)
    requires token.mintUrl == Some("https://hub.berachain.com/vaults/")
    ensures MintUrlRule(token.(protocol := Some("bex")))
      == [MintUrlPrefix(token.symbol, BEX_MINT_PREFIX)]
    ensures MintUrlRule(token.(protocol := Some("kodiak")))
      == [MintUrlExpected(token.symbol, KodiakMintUrl(token.address))]
    ensures MintUrlRule(token.(protocol := Some("kodiak"), mintUrl := Some(KodiakMintUrl(token.address)))) == []
  {
    assert "https://hub.berachain.com/vaults/"[26] != BEX_MINT_PREFIX[26];
    assert KodiakMintUrl(token.address)[8] != "https://hub.berachain.com/vaults/"[8];
  }
}
