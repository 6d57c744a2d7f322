/** The record-consistency rules of `scripts/_/validate-token-details.ts` and
    the per-chain run that drives them.

    Every rule appends to a chain-scoped, append-only list of diagnostics.
    Each rule is specified by a function giving the diagnostics it appends
    (`DuplicateRule`, `MintUrlRule`, `ProtocolRule`, `SymbolRule`, `NameRule`);
    the class `ChainValidation` holds the shared state the source mutates (the
    set of lower-cased addresses seen so far and the diagnostics list) and its
    methods are proved to append exactly what those functions give. */
module TokenDetails {
  import opened Lists
  import opened Strings
  import opened Registry

  const PLACEHOLDER_SYMBOL := "FIX_MISSING_SYMBOL"
  /** What `${protocol?.prefix}` renders to when no directory entry matches. */
  const UNKNOWN_PREFIX := "undefined"
  const BEX_MINT_PREFIX := "https://hub.berachain.com/pools/"
  const DOLOMITE_MINT_PREFIX := "https://app.dolomite.io/balances"

  /** The only mint URL accepted for a `kodiak` record: built from the
      record's own address, exactly as written in the record. */
  function KodiakMintUrl(address: string): string
  {
    "https://app.kodiak.finance/#/liquidity/pools/" + address + "?chain=berachain_mainnet"
  }

  /** One diagnostic. `External` carries a text appended by a collaborator
      this model does not look into (schema, decimals, image, on-chain
      fetchers); every other constructor is appended by one of the rules. */
  datatype Diagnostic =
    | DuplicateAddress(address: string)
    | MintUrlPrefix(symbol: string, prefix: string)
    | MintUrlExpected(symbol: string, expected: string)
    | UnknownProtocol(symbol: string)
    | SymbolMismatch(symbol: string, onChainSymbol: string)
    | MissingUnderlying(name: string, underlying: string)
    | CompositeNameMismatch(name: string, expected: string, derived: string)
    | NameMismatch(name: string, onChainName: string)
    | External(text: string)
  {
    predicate IsRule()
    {
      !External?
    }

    /** Position of the rule that appends this diagnostic in the order the
        rules run for one record. */
    function Rank(): nat
    {
      match this
      case DuplicateAddress(_) => 0
      case MintUrlPrefix(_, _) => 1
      case MintUrlExpected(_, _) => 1
      case UnknownProtocol(_) => 2
      case SymbolMismatch(_, _) => 3
      case MissingUnderlying(_, _) => 4
      case CompositeNameMismatch(_, _, _) => 4
      case NameMismatch(_, _) => 4
      case External(_) => 0
    }
  }

  /** The text the source pushes for each diagnostic. A rule's text opens
      with the record it concerns (its symbol or name; the duplicate-address
      text opens with a fixed phrase and then the address) and closes with
      what was expected or what is missing; a composite-name text lists both
      the prefixed expected name and the derived name. A collaborator's text
      is kept as it is. */
  function Message(d: Diagnostic): (r: string)
    ensures d.DuplicateAddress? ==> StartsWith(r, "Duplicate token address found: " + d.address)
    ensures d.MintUrlPrefix? ==> StartsWith(r, d.symbol) && EndsWith(r, d.prefix)
    ensures d.MintUrlExpected? ==> StartsWith(r, d.symbol) && EndsWith(r, d.expected)
    ensures d.UnknownProtocol? ==> StartsWith(r, d.symbol)
    ensures d.SymbolMismatch? ==> StartsWith(r, d.symbol) && EndsWith(r, d.onChainSymbol)
    ensures d.MissingUnderlying? ==> StartsWith(r, d.name) && EndsWith(r, d.underlying)
    ensures d.CompositeNameMismatch? ==>
      StartsWith(r, d.name + " does not match " + d.expected + " or ") && EndsWith(r, d.derived)
    ensures d.NameMismatch? ==> StartsWith(r, d.name) && EndsWith(r, d.onChainName)
    ensures d.External? ==> r == d.text
  {
    match d
    case DuplicateAddress(a) => Framed("Duplicate token address found: ", a, ". Token addresses must be unique.")
    case MintUrlPrefix(s, p) => Framed(s, " mintUrl is incorrect. It should start with ", p)
    case MintUrlExpected(s, e) => Framed(s, " mintUrl is incorrect. It should be ", e)
    case UnknownProtocol(s) => Framed(s, " does not have a protocol (token validation)", "")
    case SymbolMismatch(s, o) => Framed(s, "\U{2019}s symbol does not match the on-chain symbol ", o)
    case MissingUnderlying(n, u) => Framed(n, " does not have an underlying token for ", u)
    case CompositeNameMismatch(n, e, derived) => Framed(n, " does not match " + e + " or ", derived)
    case NameMismatch(n, o) => Framed(n, " does not match ", o)
    case External(t) => t
  }

  /** Diagnostics appended by a collaborator, in the order it appends them. */
  function Ext(texts: seq<string>): (r: seq<Diagnostic>)
    ensures |r| == |texts|
    ensures forall i :: 0 <= i < |r| ==> r[i] == External(texts[i])
  {
    seq(|texts|, i requires 0 <= i < |texts| => External(texts[i]))
  }

  // ---------------------------------------------------------------------
  // The rules, one function each: the diagnostics the rule appends.
  // ---------------------------------------------------------------------

  /** Duplicate-address step: one diagnostic, naming the address as written,
      exactly when its lower-cased form was seen before. */
  function DuplicateRule(seen: set<string>, token: Token): (r: seq<Diagnostic>)
    ensures |r| <= 1
    ensures r != [] <==> ToLower(token.address) in seen
    ensures r != [] ==> r[0] == DuplicateAddress(token.address)
  {
    if ToLower(token.address) in seen then [DuplicateAddress(token.address)] else []
  }

  /** Mint-URL conventions: only records with a non-empty `mintUrl` whose
      protocol is `bex`, `dolomite` or `kodiak` are checked. */
  function MintUrlRule(token: Token): (r: seq<Diagnostic>)
    ensures |r| <= 1
    ensures token.mintUrl.None? || token.mintUrl.value == "" ==> r == []
    ensures token.protocol !in {Some("bex"), Some("dolomite"), Some("kodiak")} ==> r == []
    ensures token.mintUrl.Some? && token.mintUrl.value != "" && token.protocol == Some("bex") ==>
      r == if StartsWith(token.mintUrl.value, BEX_MINT_PREFIX) then [] else [MintUrlPrefix(token.symbol, BEX_MINT_PREFIX)]
    ensures token.mintUrl.Some? && token.mintUrl.value != "" && token.protocol == Some("dolomite") ==>
      r == if StartsWith(token.mintUrl.value, DOLOMITE_MINT_PREFIX) then [] else [MintUrlExpected(token.symbol, DOLOMITE_MINT_PREFIX)]
    ensures token.mintUrl.Some? && token.mintUrl.value != "" && token.protocol == Some("kodiak") ==>
      r == if token.mintUrl.value == KodiakMintUrl(token.address) then [] else [MintUrlExpected(token.symbol, KodiakMintUrl(token.address))]
  {
    if token.mintUrl.None? || token.mintUrl.value == "" then []
    else
      var url := token.mintUrl.value;
      if token.protocol == Some("bex") then
        if StartsWith(url, BEX_MINT_PREFIX) then [] else [MintUrlPrefix(token.symbol, BEX_MINT_PREFIX)]
      else if token.protocol == Some("dolomite") then
        if StartsWith(url, DOLOMITE_MINT_PREFIX) then [] else [MintUrlExpected(token.symbol, DOLOMITE_MINT_PREFIX)]
      else if token.protocol == Some("kodiak") then
        if url == KodiakMintUrl(token.address) then [] else [MintUrlExpected(token.symbol, KodiakMintUrl(token.address))]
      else []
  }

  /** Protocol reference: one diagnostic exactly when the record names a
      protocol that no directory entry has as its id. */
  function ProtocolRule(token: Token, protocols: seq<Protocol>): (r: seq<Diagnostic>)
    ensures |r| <= 1
    ensures r != [] <==> token.protocol.Some? && forall i :: 0 <= i < |protocols| ==> protocols[i].id != token.protocol.value
    ensures r != [] ==> r[0] == UnknownProtocol(token.symbol)
  {
    if token.protocol.None? then []
    else if FindProtocol(protocols, token.protocol.value).None? then [UnknownProtocol(token.symbol)]
    else []
  }

  /** Symbol match: exact, case-sensitive comparison with the on-chain symbol. */
  function SymbolRule(token: Token, onChainSymbol: string): (r: seq<Diagnostic>)
    ensures |r| <= 1
    ensures r != [] <==> token.symbol != onChainSymbol
    ensures r != [] ==> r[0] == SymbolMismatch(token.symbol, onChainSymbol)
  {
    if token.symbol != onChainSymbol then [SymbolMismatch(token.symbol, onChainSymbol)] else []
  }

  /** The prefix text of protocol `id`: the first matching entry's prefix, or
      the literal `undefined` when the directory has no such id. */
  function PrefixText(protocols: seq<Protocol>, id: string): (r: string)
    ensures (forall i :: 0 <= i < |protocols| ==> protocols[i].id != id) ==> r == UNKNOWN_PREFIX
    ensures forall i :: (0 <= i < |protocols| && protocols[i].id == id
                         && (forall j :: 0 <= j < i ==> protocols[j].id != id)) ==> r == protocols[i].prefix
  {
    match FindProtocol(protocols, id)
    case None => UNKNOWN_PREFIX
    case Some(p) => p.prefix
  }

  /** `(token && token.symbol) || 'FIX_MISSING_SYMBOL'`. */
  function SymbolOrPlaceholder(found: Option<Token>): (r: string)
    ensures r != ""
    ensures found.Some? && found.value.symbol != "" ==> r == found.value.symbol
    ensures r == PLACEHOLDER_SYMBOL || (found.Some? && r == found.value.symbol)
  {
    if found.Some? && found.value.symbol != "" then found.value.symbol else PLACEHOLDER_SYMBOL
  }

  /** The symbol each underlying address contributes, in declared order. */
  function UnderlyingSymbols(tokens: seq<Token>, underlying: seq<string>): (r: seq<string>)
    ensures |r| == |underlying|
    ensures forall i :: 0 <= i < |r| ==> r[i] != ""
  {
    if underlying == [] then []
    else
      var n := |underlying| - 1;
      UnderlyingSymbols(tokens, underlying[..n]) + [SymbolOrPlaceholder(FindToken(tokens, underlying[n]))]
  }

  /** An underlying address with no matching record contributes the
      placeholder; one whose first matching record is `tokens[k]` contributes
      that record's symbol, or the placeholder when the symbol is empty. */
  lemma UnderlyingSymbolAt(tokens: seq<Token>, underlying: seq<string>, i: nat)
    requires i < |underlying|
    ensures (forall k :: 0 <= k < |tokens| ==> !SameAddress(tokens[k].address, underlying[i])) ==>
      UnderlyingSymbols(tokens, underlying)[i] == PLACEHOLDER_SYMBOL
    ensures forall k :: (0 <= k < |tokens| && SameAddress(tokens[k].address, underlying[i])
                         && (forall j :: 0 <= j < k ==> !SameAddress(tokens[j].address, underlying[i]))) ==>
      UnderlyingSymbols(tokens, underlying)[i] == (if tokens[k].symbol == "" then PLACEHOLDER_SYMBOL else tokens[k].symbol)
  {
    UnderlyingSymbolsIndex(tokens, underlying, i);
    forall k | 0 <= k < |tokens| && SameAddress(tokens[k].address, underlying[i])
               && (forall j :: 0 <= j < k ==> !SameAddress(tokens[j].address, underlying[i]))
      ensures FindToken(tokens, underlying[i]) == Some(tokens[k])
    {
      FindTokenFirst(tokens, underlying[i], k);
    }
  }

  lemma {:induction false} UnderlyingSymbolsIndex(tokens: seq<Token>, underlying: seq<string>, i: nat)
    requires i < |underlying|
    ensures UnderlyingSymbols(tokens, underlying)[i] == SymbolOrPlaceholder(FindToken(tokens, underlying[i]))
  {
    var n := |underlying| - 1;
    var front := UnderlyingSymbols(tokens, underlying[..n]);
    assert UnderlyingSymbols(tokens, underlying) == front + [SymbolOrPlaceholder(FindToken(tokens, underlying[n]))];
    if i < n {
      UnderlyingSymbolsIndex(tokens, underlying[..n], i);
      assert underlying[..n][i] == underlying[i];
    }
  }

  /** The name a composite record derives from its underlying records: it
      starts with the first underlying symbol, so it is never empty when
      there is at least one underlying address. */
  function DerivedName(tokens: seq<Token>, underlying: seq<string>): (r: string)
    ensures underlying != [] ==> StartsWith(r, UnderlyingSymbols(tokens, underlying)[0]) && r != ""
  {
    Join(UnderlyingSymbols(tokens, underlying), "-")
  }

  /** One diagnostic per underlying address with no matching record, in
      declared order. */
  function MissingUnderlyings(name: string, tokens: seq<Token>, underlying: seq<string>): (r: seq<Diagnostic>)
    ensures |r| <= |underlying|
    ensures forall k :: 0 <= k < |r| ==> r[k].MissingUnderlying? && r[k].name == name
  {
    if underlying == [] then []
    else
      var u := underlying[|underlying| - 1];
      MissingUnderlyings(name, tokens, underlying[..|underlying| - 1])
        + (if FindToken(tokens, u).None? then [MissingUnderlying(name, u)] else [])
  }

  /** The verdict on a composite record's name, given the derived name. */
  function CompositeNameVerdict(token: Token, derived: string, protocols: seq<Protocol>,
                                onChainName: string, onChainSymbol: string): (r: seq<Diagnostic>)
    ensures |r| <= 1
    ensures r == [] <==>
      token.name == derived || token.name == onChainName || token.name == onChainSymbol
      || token.protocol.None? || token.name == PrefixText(protocols, token.protocol.value) + derived
    ensures r != [] ==>
      r[0] == CompositeNameMismatch(token.name, PrefixText(protocols, token.protocol.value) + derived, derived)
  {
    if token.name != derived && token.name != onChainName && token.name != onChainSymbol && token.protocol.Some? then
      var expected := PrefixText(protocols, token.protocol.value) + derived;
      if token.name != expected then [CompositeNameMismatch(token.name, expected, derived)] else []
    else []
  }

  /** The verdict on a simple record's name. */
  function SimpleNameRule(token: Token, onChainName: string, onChainSymbol: string): (r: seq<Diagnostic>)
    ensures |r| <= 1
    ensures r == [] <==> token.name == onChainName || token.name == onChainSymbol
    ensures r != [] ==> r[0] == NameMismatch(token.name, onChainName)
  {
    if token.name != onChainName && token.name != onChainSymbol then [NameMismatch(token.name, onChainName)] else []
  }

  /** Name rule: a composite record gets its missing-underlying diagnostics
      first, whatever the verdict on its name, then at most one more. */
  function NameRule(token: Token, tokens: seq<Token>, protocols: seq<Protocol>,
                    onChainName: string, onChainSymbol: string): (r: seq<Diagnostic>)
    ensures token.underlyingTokens.None? ==> |r| <= 1
    ensures token.underlyingTokens.Some? ==>
      var m := MissingUnderlyings(token.name, tokens, token.underlyingTokens.value);
      |m| <= |r| <= |m| + 1 && r[..|m|] == m
  {
    match token.underlyingTokens
    case None => SimpleNameRule(token, onChainName, onChainSymbol)
    case Some(us) =>
      MissingUnderlyings(token.name, tokens, us)
        + CompositeNameVerdict(token, DerivedName(tokens, us), protocols, onChainName, onChainSymbol)
  }

  // ---------------------------------------------------------------------
  // Order of the rules' diagnostics.
  // ---------------------------------------------------------------------

  /** The rules' diagnostics in `ds` come in the order the rules run
      (duplicate, mint URL, protocol, symbol, name); collaborator
      diagnostics may sit anywhere between them. */
  predicate RulesInOrder(ds: seq<Diagnostic>)
  {
    forall i, j :: 0 <= i < j < |ds| && ds[i].IsRule() && ds[j].IsRule() ==> ds[i].Rank() <= ds[j].Rank()
  }

  /** Every rule's diagnostic in `ds` ranks between `lo` and `hi`. */
  predicate RanksWithin(ds: seq<Diagnostic>, lo: nat, hi: nat)
  {
    forall i :: 0 <= i < |ds| && ds[i].IsRule() ==> lo <= ds[i].Rank() <= hi
  }

  /** An ordered run ranked up to `k`, followed by an ordered run ranked
      from `k` on, is an ordered run. */
  lemma AppendInOrder(a: seq<Diagnostic>, b: seq<Diagnostic>, lo: nat, k: nat, hi: nat)
    requires lo <= k <= hi
    requires RulesInOrder(a) && RanksWithin(a, lo, k)
    requires RulesInOrder(b) && RanksWithin(b, k, hi)
    ensures RulesInOrder(a + b) && RanksWithin(a + b, lo, hi)
  {
    var ab := a + b;
    forall i, j | 0 <= i < j < |ab| && ab[i].IsRule() && ab[j].IsRule()
      ensures ab[i].Rank() <= ab[j].Rank()
    {
      if j < |a| {
        assert ab[i] == a[i] && ab[j] == a[j];
      } else if i < |a| {
        assert ab[i] == a[i] && ab[j] == b[j - |a|];
      } else {
        assert ab[i] == b[i - |a|] && ab[j] == b[j - |a|];
      }
    }
    forall i | 0 <= i < |ab| && ab[i].IsRule() ensures lo <= ab[i].Rank() <= hi {
      if i < |a| {
        assert ab[i] == a[i];
      } else {
        assert ab[i] == b[i - |a|];
      }
    }
  }

  lemma ExtInOrder(texts: seq<string>, lo: nat, hi: nat)
    ensures RulesInOrder(Ext(texts)) && RanksWithin(Ext(texts), lo, hi)
  {
  }

  lemma NameRuleRank(token: Token, tokens: seq<Token>, protocols: seq<Protocol>,
                     onChainName: string, onChainSymbol: string)
    ensures RulesInOrder(NameRule(token, tokens, protocols, onChainName, onChainSymbol))
    ensures RanksWithin(NameRule(token, tokens, protocols, onChainName, onChainSymbol), 4, 4)
  {
    var r := NameRule(token, tokens, protocols, onChainName, onChainSymbol);
    if token.underlyingTokens.Some? {
      var us := token.underlyingTokens.value;
      var m := MissingUnderlyings(token.name, tokens, us);
      var v := CompositeNameVerdict(token, DerivedName(tokens, us), protocols, onChainName, onChainSymbol);
      assert r == m + v;
      forall i | 0 <= i < |r| ensures r[i].Rank() == 4 {
        if i < |m| {
          assert r[i] == m[i] && m[i] in m;
        } else {
          assert r[i] == v[i - |m|];
        }
      }
    }
  }

  // ---------------------------------------------------------------------
  // One record, one chain.
  // ---------------------------------------------------------------------

  /** What the collaborators this model does not look into report for one
      record: the diagnostics the decimals and image checks append, the
      on-chain symbol and name, and the diagnostics their fetchers append. */
  datatype Collaborators = Collaborators(
    decimalsDiagnostics: seq<string>,
    imageDiagnostics: seq<string>,
    onChainSymbol: string,
    symbolDiagnostics: seq<string>,
    onChainName: string,
    nameDiagnostics: seq<string>)

  /** Everything one record appends after its duplicate-address step: the
      decimals and image checks' diagnostics, the mint-URL and protocol
      rules, the on-chain fetchers' diagnostics, then the symbol and name
      rules. The rules' diagnostics therefore come in the order the rules
      run, and none of them is a duplicate-address diagnostic. */
  function RecordRules(token: Token, tokens: seq<Token>, protocols: seq<Protocol>, c: Collaborators): (r: seq<Diagnostic>)
    ensures RulesInOrder(r) && RanksWithin(r, 1, 4)
  {
    var checked := Ext(c.decimalsDiagnostics) + Ext(c.imageDiagnostics);
    ExtInOrder(c.decimalsDiagnostics, 1, 1);
    ExtInOrder(c.imageDiagnostics, 1, 1);
    AppendInOrder(Ext(c.decimalsDiagnostics), Ext(c.imageDiagnostics), 1, 1, 1);
    var minted := checked + MintUrlRule(token);
    AppendInOrder(checked, MintUrlRule(token), 1, 1, 1);
    var listed := minted + ProtocolRule(token, protocols);
    AppendInOrder(minted, ProtocolRule(token, protocols), 1, 2, 2);
    var fetchedSymbol := listed + Ext(c.symbolDiagnostics);
    ExtInOrder(c.symbolDiagnostics, 2, 2);
    AppendInOrder(listed, Ext(c.symbolDiagnostics), 1, 2, 2);
    var fetched := fetchedSymbol + Ext(c.nameDiagnostics);
    ExtInOrder(c.nameDiagnostics, 2, 2);
    AppendInOrder(fetchedSymbol, Ext(c.nameDiagnostics), 1, 2, 2);
    var symbolChecked := fetched + SymbolRule(token, c.onChainSymbol);
    AppendInOrder(fetched, SymbolRule(token, c.onChainSymbol), 1, 3, 3);
    NameRuleRank(token, tokens, protocols, c.onChainName, c.onChainSymbol);
    AppendInOrder(symbolChecked, NameRule(token, tokens, protocols, c.onChainName, c.onChainSymbol), 1, 4, 4);
    symbolChecked + NameRule(token, tokens, protocols, c.onChainName, c.onChainSymbol)
  }

  /** Everything `validateTokenDetails` appends for one record: the rules'
      diagnostics come in the order the rules run, and the record's first
      diagnostic is a duplicate-address one exactly when its address was
      seen before. */
  function TokenDiagnostics(seen: set<string>, token: Token, tokens: seq<Token>, protocols: seq<Protocol>,
                            c: Collaborators): (r: seq<Diagnostic>)
    ensures RulesInOrder(r)
    ensures (r != [] && r[0].DuplicateAddress?) <==> ToLower(token.address) in seen
  {
    DuplicateThenRest(seen, token, RecordRules(token, tokens, protocols, c));
    DuplicateRule(seen, token) + RecordRules(token, tokens, protocols, c)
  }

  lemma DuplicateThenRest(seen: set<string>, token: Token, rest: seq<Diagnostic>)
    requires RulesInOrder(rest) && RanksWithin(rest, 1, 4)
    ensures RulesInOrder(DuplicateRule(seen, token) + rest)
    ensures var r := DuplicateRule(seen, token) + rest;
      (r != [] && r[0].DuplicateAddress?) <==> ToLower(token.address) in seen
  {
    AppendInOrder(DuplicateRule(seen, token), rest, 0, 0, 4);
    assert rest != [] ==> rest[0].IsRule() ==> rest[0].Rank() >= 1;
  }

  /** The lower-cased addresses of `ts`. */
  function Seen(ts: seq<Token>): set<string>
  {
    if ts == [] then {} else Seen(ts[..|ts| - 1]) + {ToLower(ts[|ts| - 1].address)}
  }

  /** The duplicate-address diagnostics of a list processed in order, each
      record checked against the addresses of the records before it. */
  function DuplicatePass(ts: seq<Token>): (r: seq<Diagnostic>)
    ensures |r| <= |ts|
    ensures forall d :: d in r ==> d.DuplicateAddress?
  {
    if ts == [] then []
    else DuplicatePass(ts[..|ts| - 1]) + DuplicateRule(Seen(ts[..|ts| - 1]), ts[|ts| - 1])
  }

  /** The diagnostics of the records of `ts` after their duplicate steps,
      record by record; `reports[i]` belongs to `ts[i]`. None of them is a
      duplicate-address diagnostic. */
  function RecordsPass(ts: seq<Token>, tokens: seq<Token>, protocols: seq<Protocol>, reports: seq<Collaborators>): (r: seq<Diagnostic>)
    requires |reports| == |ts|
    ensures forall d :: d in r ==> !d.DuplicateAddress?
  {
    if ts == [] then []
    else
      var last := RecordRules(ts[|ts| - 1], tokens, protocols, reports[|ts| - 1]);
      assert forall i :: 0 <= i < |last| ==> !last[i].DuplicateAddress?;
      RecordsPass(ts[..|ts| - 1], tokens, protocols, reports[..|ts| - 1]) + last
  }

  function IsDuplicate(): Diagnostic -> bool
  {
    (d: Diagnostic) => d.DuplicateAddress?
  }

  /** The diagnostics of one chain: the schema validator's, then every
      record's duplicate step (each runs before its record's first `await`),
      then the rest of every record, here in list order. The schema
      diagnostics lead, and the duplicate-address diagnostics among all of
      them are exactly those of the duplicate pass, in its order. */
  function ChainDiagnostics(schemaDiagnostics: seq<string>, tokens: seq<Token>, protocols: seq<Protocol>,
                            reports: seq<Collaborators>): (r: seq<Diagnostic>)
    requires |reports| == |tokens|
    ensures |schemaDiagnostics| <= |r| && r[..|schemaDiagnostics|] == Ext(schemaDiagnostics)
    ensures Filter(r, IsDuplicate()) == DuplicatePass(tokens)
  {
    OnlyDuplicatePass(Ext(schemaDiagnostics), DuplicatePass(tokens), RecordsPass(tokens, tokens, protocols, reports));
    Ext(schemaDiagnostics) + DuplicatePass(tokens) + RecordsPass(tokens, tokens, protocols, reports)
  }

  lemma OnlyDuplicatePass(schema: seq<Diagnostic>, duplicates: seq<Diagnostic>, rest: seq<Diagnostic>)
    requires forall i :: 0 <= i < |schema| ==> !schema[i].DuplicateAddress?
    requires forall d :: d in duplicates ==> d.DuplicateAddress?
    requires forall d :: d in rest ==> !d.DuplicateAddress?
    ensures Filter(schema + duplicates + rest, IsDuplicate()) == duplicates
  {
    FilterConcat(schema, duplicates, IsDuplicate());
    FilterConcat(schema + duplicates, rest, IsDuplicate());
    FilterNothing(schema, IsDuplicate());
    assert forall i :: 0 <= i < |rest| ==> rest[i] in rest;
    FilterNothing(rest, IsDuplicate());
    assert forall i :: 0 <= i < |duplicates| ==> duplicates[i] in duplicates;
    FilterEverything(duplicates, IsDuplicate());
  }

  /** The chain-scoped state of one validation run. */
  class ChainValidation {
    var addresses: set<string>
    var errors: seq<Diagnostic>

    constructor ()
      ensures addresses == {} && errors == []
    {
      addresses := {};
      errors := [];
    }

    /** A collaborator appends its diagnostics. */
    method AppendExternal(texts: seq<string>)
      modifies this`errors
      ensures errors == old(errors) + Ext(texts)
    {
      errors := errors + Ext(texts);
    }

    /** Check the lower-cased address against the set, then insert it. */
    method CheckDuplicate(token: Token)
      modifies this
      ensures errors == old(errors) + DuplicateRule(old(addresses), token)
      ensures addresses == old(addresses) + {ToLower(token.address)}
    {
      var lowercased := ToLower(token.address);
      if lowercased in addresses {
        errors := errors + [DuplicateAddress(token.address)];
      }
      addresses := addresses + {lowercased};
    }

    method ValidateMintUrl(token: Token)
      modifies this`errors
      ensures errors == old(errors) + MintUrlRule(token)
    {
      if token.mintUrl.None? || token.mintUrl.value == "" {
        return;
      }
      var url := token.mintUrl.value;
      if token.protocol == Some("bex") {
        if !StartsWith(url, BEX_MINT_PREFIX) {
          errors := errors + [MintUrlPrefix(token.symbol, BEX_MINT_PREFIX)];
        }
      } else if token.protocol == Some("dolomite") {
        if !StartsWith(url, DOLOMITE_MINT_PREFIX) {
          errors := errors + [MintUrlExpected(token.symbol, DOLOMITE_MINT_PREFIX)];
        }
      } else if token.protocol == Some("kodiak") {
        var expected := KodiakMintUrl(token.address);
        if url != expected {
          errors := errors + [MintUrlExpected(token.symbol, expected)];
        }
      }
    }

    method ValidateProtocol(token: Token, protocols: seq<Protocol>)
      modifies this`errors
      ensures errors == old(errors) + ProtocolRule(token, protocols)
    {
      if token.protocol.None? {
        return;
      }
      var protocol := FindProtocol(protocols, token.protocol.value);
      if protocol.None? {
        errors := errors + [UnknownProtocol(token.symbol)];
      }
    }

    method ValidateSymbol(token: Token, onChainSymbol: string)
      modifies this`errors
      ensures errors == old(errors) + SymbolRule(token, onChainSymbol)
    {
      if token.symbol != onChainSymbol {
        errors := errors + [SymbolMismatch(token.symbol, onChainSymbol)];
      }
    }

    /** The `underlyingTokens.map(...)` step: looks each underlying address
        up in turn, reporting the missing ones as it goes, and collects the
        symbols they contribute. */
    method LookUpUnderlying(name: string, tokens: seq<Token>, us: seq<string>) returns (symbols: seq<string>)
      modifies this`errors
      ensures errors == old(errors) + MissingUnderlyings(name, tokens, us)
      ensures symbols == UnderlyingSymbols(tokens, us)
    {
      symbols := [];
      var i := 0;
      while i < |us|
        invariant 0 <= i <= |us|
        invariant errors == old(errors) + MissingUnderlyings(name, tokens, us[..i])
        invariant symbols == UnderlyingSymbols(tokens, us[..i])
      {
        var found := FindToken(tokens, us[i]);
        MissingUnderlyingsStep(name, tokens, us, i);
        UnderlyingSymbolsStep(tokens, us, i);
        var missing := if found.None? then [MissingUnderlying(name, us[i])] else [];
        if found.None? {
          errors := errors + [MissingUnderlying(name, us[i])];
        }
        AppendAssociative(old(errors), MissingUnderlyings(name, tokens, us[..i]), missing);
        assert errors == old(errors) + MissingUnderlyings(name, tokens, us[..i + 1]);
        symbols := symbols + [SymbolOrPlaceholder(found)];
        i := i + 1;
      }
      assert us[..i] == us;
    }

    method ValidateName(token: Token, tokens: seq<Token>, protocols: seq<Protocol>,
                        onChainName: string, onChainSymbol: string)
      modifies this`errors
      ensures errors == old(errors) + NameRule(token, tokens, protocols, onChainName, onChainSymbol)
    {
      if token.underlyingTokens.None? {
        if token.name != onChainName && token.name != onChainSymbol {
          errors := errors + [NameMismatch(token.name, onChainName)];
        }
        return;
      }
      var symbols := LookUpUnderlying(token.name, tokens, token.underlyingTokens.value);
      var derived := Join(symbols, "-");
      if token.name != derived && token.name != onChainName && token.name != onChainSymbol && token.protocol.Some? {
        var expected := PrefixText(protocols, token.protocol.value) + derived;
        if token.name != expected {
          errors := errors + [CompositeNameMismatch(token.name, expected, derived)];
        }
      }
    }

    /** Everything `validateTokenDetails` does after its duplicate step. */
    method ValidateRecord(token: Token, tokens: seq<Token>, protocols: seq<Protocol>, c: Collaborators)
      modifies this`errors
      ensures errors == old(errors) + RecordRules(token, tokens, protocols, c)
    {
      AppendExternal(c.decimalsDiagnostics);
      ghost var appended := Ext(c.decimalsDiagnostics);
      AppendExternal(c.imageDiagnostics);
      AppendAssociative(old(errors), appended, Ext(c.imageDiagnostics));
      appended := appended + Ext(c.imageDiagnostics);
      ValidateMintUrl(token);
      AppendAssociative(old(errors), appended, MintUrlRule(token));
      appended := appended + MintUrlRule(token);
      ValidateProtocol(token, protocols);
      AppendAssociative(old(errors), appended, ProtocolRule(token, protocols));
      appended := appended + ProtocolRule(token, protocols);
      AppendExternal(c.symbolDiagnostics);
      AppendAssociative(old(errors), appended, Ext(c.symbolDiagnostics));
      appended := appended + Ext(c.symbolDiagnostics);
      AppendExternal(c.nameDiagnostics);
      AppendAssociative(old(errors), appended, Ext(c.nameDiagnostics));
      appended := appended + Ext(c.nameDiagnostics);
      ValidateSymbol(token, c.onChainSymbol);
      AppendAssociative(old(errors), appended, SymbolRule(token, c.onChainSymbol));
      appended := appended + SymbolRule(token, c.onChainSymbol);
      ValidateName(token, tokens, protocols, c.onChainName, c.onChainSymbol);
      AppendAssociative(old(errors), appended, NameRule(token, tokens, protocols, c.onChainName, c.onChainSymbol));
      appended := appended + NameRule(token, tokens, protocols, c.onChainName, c.onChainSymbol);
    }

    /** `validateTokenDetails` for one record. */
    method ValidateTokenDetails(token: Token, tokens: seq<Token>, protocols: seq<Protocol>, c: Collaborators)
      modifies this
      ensures errors == old(errors) + TokenDiagnostics(old(addresses), token, tokens, protocols, c)
      ensures addresses == old(addresses) + {ToLower(token.address)}
    {
      CheckDuplicate(token);
      ValidateRecord(token, tokens, protocols, c);
      AppendAssociative(old(errors), DuplicateRule(old(addresses), token), RecordRules(token, tokens, protocols, c));
    }

    /** The synchronous duplicate step of every record of a chain, in list
        order, starting from an empty address set. */
    method CheckDuplicates(tokens: seq<Token>)
      requires addresses == {}
      modifies this
      ensures errors == old(errors) + DuplicatePass(tokens)
      ensures addresses == Seen(tokens)
    {
      var i := 0;
      while i < |tokens|
        invariant 0 <= i <= |tokens|
        invariant errors == old(errors) + DuplicatePass(tokens[..i])
        invariant addresses == Seen(tokens[..i])
      {
        DuplicatePassStep(tokens, i);
        AppendAssociative(old(errors), DuplicatePass(tokens[..i]), DuplicateRule(Seen(tokens[..i]), tokens[i]));
        CheckDuplicate(tokens[i]);
        i := i + 1;
      }
      assert tokens[..i] == tokens;
    }

    /** The rest of every record of a chain, in list order. */
    method ValidateRecords(tokens: seq<Token>, protocols: seq<Protocol>, reports: seq<Collaborators>)
      requires |reports| == |tokens|
      modifies this`errors
      ensures errors == old(errors) + RecordsPass(tokens, tokens, protocols, reports)
    {
      var i := 0;
      while i < |tokens|
        invariant 0 <= i <= |tokens|
        invariant errors == old(errors) + RecordsPass(tokens[..i], tokens, protocols, reports[..i])
      {
        ghost var done := RecordsPass(tokens[..i], tokens, protocols, reports[..i]);
        ghost var next := RecordRules(tokens[i], tokens, protocols, reports[i]);
        RecordsPassStep(tokens, protocols, reports, i);
        ValidateRecord(tokens[i], tokens, protocols, reports[i]);
        AppendAssociative(old(errors), done, next);
        i := i + 1;
      }
      assert tokens[..i] == tokens && reports[..i] == reports;
    }
  }

  /** One chain's run, with a fresh address set and diagnostics list: the
      schema diagnostics, then the duplicate step of every record in list
      order, then the rest of every record. */
  method ValidateTokensByChain(schemaDiagnostics: seq<string>, tokens: seq<Token>, protocols: seq<Protocol>,
                               reports: seq<Collaborators>) returns (errors: seq<Diagnostic>)
    requires |reports| == |tokens|
    ensures errors == ChainDiagnostics(schemaDiagnostics, tokens, protocols, reports)
  {
    var run := new ChainValidation();
    run.AppendExternal(schemaDiagnostics);
    ghost var afterSchema := run.errors;
    assert afterSchema == Ext(schemaDiagnostics);
    run.CheckDuplicates(tokens);
    ghost var afterDuplicates := run.errors;
    assert afterDuplicates == Ext(schemaDiagnostics) + DuplicatePass(tokens);
    run.ValidateRecords(tokens, protocols, reports);
    errors := run.errors;
    assert errors == afterDuplicates + RecordsPass(tokens, tokens, protocols, reports);
  }

  /** `Seen(ts)` holds exactly the lower-cased addresses of the records of `ts`. */
  lemma {:induction false} SeenMembers(ts: seq<Token>, a: string)
    ensures a in Seen(ts) <==> exists j :: 0 <= j < |ts| && ToLower(ts[j].address) == a
  {
    if ts != [] {
      var init := ts[..|ts| - 1];
      SeenMembers(init, a);
      if exists j :: 0 <= j < |init| && ToLower(init[j].address) == a {
        var j :| 0 <= j < |init| && ToLower(init[j].address) == a;
        assert ts[j] == init[j];
      }
      if exists j :: 0 <= j < |ts| && ToLower(ts[j].address) == a {
        var j :| 0 <= j < |ts| && ToLower(ts[j].address) == a;
        if j < |init| {
          assert init[j] == ts[j];
        }
      }
    }
  }

  lemma MissingUnderlyingsStep(name: string, tokens: seq<Token>, us: seq<string>, i: nat)
    requires i < |us|
    ensures MissingUnderlyings(name, tokens, us[..i + 1]) == MissingUnderlyings(name, tokens, us[..i])
      + (if FindToken(tokens, us[i]).None? then [MissingUnderlying(name, us[i])] else [])
  {
    assert us[..i + 1][..i] == us[..i];
  }

  lemma UnderlyingSymbolsStep(tokens: seq<Token>, us: seq<string>, i: nat)
    requires i < |us|
    ensures UnderlyingSymbols(tokens, us[..i + 1])
      == UnderlyingSymbols(tokens, us[..i]) + [SymbolOrPlaceholder(FindToken(tokens, us[i]))]
  {
    assert us[..i + 1][..i] == us[..i];
  }

  lemma DuplicatePassStep(tokens: seq<Token>, i: nat)
    requires i < |tokens|
    ensures DuplicatePass(tokens[..i + 1]) == DuplicatePass(tokens[..i]) + DuplicateRule(Seen(tokens[..i]), tokens[i])
    ensures Seen(tokens[..i + 1]) == Seen(tokens[..i]) + {ToLower(tokens[i].address)}
  {
    assert tokens[..i + 1][..i] == tokens[..i];
  }

  lemma RecordsPassStep(tokens: seq<Token>, protocols: seq<Protocol>, reports: seq<Collaborators>, i: nat)
    requires |reports| == |tokens| && i < |tokens|
    ensures RecordsPass(tokens[..i + 1], tokens, protocols, reports[..i + 1])
      == RecordsPass(tokens[..i], tokens, protocols, reports[..i]) + RecordRules(tokens[i], tokens, protocols, reports[i])
  {
    assert tokens[..i + 1][..i] == tokens[..i];
    assert reports[..i + 1][..i] == reports[..i];
  }
}
