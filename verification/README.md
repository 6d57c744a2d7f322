# Token list validation and publishing, modelled in Dafny

This project models two parts of a curated token-list repository.

**Record validation** (`scripts/_/validate-token-details.ts`, driven per chain by
`scripts/validate-tokens.ts`). A chain's token records are checked one by one.
Each check appends human-readable diagnostics to one shared, append-only list.
The checks are:

- duplicate addresses, compared after lower-casing;
- the declared symbol against the on-chain symbol;
- the declared name, either against the on-chain name and symbol, or, for a
  composite record (one with `underlyingTokens`), against the name derived by
  joining the underlying records' symbols with `-`, optionally behind the
  protocol's prefix;
- the `protocol` reference against the protocol directory;
- the per-protocol mint-URL conventions (`bex`, `dolomite`, `kodiak`).

Each rule is a function that gives the diagnostics it appends. The diagnostics
are a datatype, and `TokenDetails.Message` gives the exact text for each one.
The class `TokenDetails.ChainValidation` holds the state the source mutates:
the set of lower-cased addresses seen so far and the diagnostics list. Its
methods are proved to append exactly what the rule functions give. The
chain-level method `TokenDetails.ValidateTokensByChain` runs in two phases:

1. the duplicate step of every record, because each runs before its record's
   first `await`;
2. the rest of every record.

The name rule follows `scripts/_/validate-token-details.ts:56` and `:67`. An
underlying record that is found but has an empty symbol also contributes
`FIX_MISSING_SYMBOL`, and an unknown protocol id makes the prefix the text
`undefined`.

**Publishing** (`scripts/json-to-ts.ts`). The records of a chain's token list
that have a truthy `image` are kept and cut down to five fields
(`address`, `decimals`, `image`, `name`, `symbol`). They are sorted by symbol,
with a stable sort. Other asset lists pass through unchanged. Files ending in
`.json` are converted, and the first `.json` in the name is replaced by `.ts`.

Modules:

- `Lists`: `Option`, first-match search and filter.
- `Strings`: the JavaScript string operations the scripts call, plus the search behind `replace` and a one-character split used to state that the derived name can be taken apart again.
- `Registry`: the record and directory types and their lookups.
- `TokenDetails`: the rules, the class and the chain run.
- `TokenDetailsProperties`: properties across records and worked examples.
- `JsonToTs`: publishing.

## Model

| member | source | states |
|---|---|---|
| Strings.ToLower | scripts/_/validate-token-details.ts:151 | lower-casing keeps the length and maps every character through ASCII lower-casing |
| Strings.ReplaceFirst | scripts/json-to-ts.ts:42 | the input comes back unchanged when the pattern does not occur; otherwise only the first occurrence is replaced |
| Registry.SameAddress | scripts/_/validate-token-details.ts:44 | addresses that match have the same length |
| Registry.SameAddressCharwise | scripts/_/validate-token-details.ts:44 | two addresses match exactly when they have the same length and agree position by position once ASCII case is ignored |
| Registry.FindToken | scripts/_/validate-token-details.ts:43-45 | no result exactly when no record's address matches ignoring case; a result always matches |
| Registry.FindTokenFirst | scripts/_/validate-token-details.ts:43-45 | the record found is the first record whose address matches ignoring case |
| Registry.FindProtocol | scripts/_/validate-token-details.ts:94-96 | no result exactly when no directory entry has the id; a result has that id |
| Registry.FindProtocolFirst | scripts/_/validate-token-details.ts:64-66 | the entry found is the first entry with that id |
| TokenDetails.Message | scripts/_/validate-token-details.ts:21-155 | each rule's text opens with the symbol or name it concerns (the duplicate-address text opens with `Duplicate token address found: ` and then the address) and, where it has one, ends with the expected or missing value; a composite-name text lists the prefixed expected name and then the derived name; a collaborator's text is kept as it is |
| TokenDetails.DuplicateRule | scripts/_/validate-token-details.ts:151-156 | one diagnostic, naming the address as written, exactly when the lower-cased address is already in the set |
| TokenDetails.ChainValidation.CheckDuplicate | scripts/_/validate-token-details.ts:151-157 | appends what `DuplicateRule` gives for the old set, then the set gains the lower-cased address |
| TokenDetails.MintUrlRule | scripts/_/validate-token-details.ts:110-135 | at most one diagnostic; none without a non-empty mint URL or outside `bex`/`dolomite`/`kodiak`; `bex` and `dolomite` need their fixed prefixes; `kodiak` needs exactly the URL built from the record's address |
| TokenDetails.ChainValidation.ValidateMintUrl | scripts/_/validate-token-details.ts:103-136 | appends exactly `MintUrlRule` and leaves the address set alone |
| TokenDetails.ProtocolRule | scripts/_/validate-token-details.ts:90-100 | one diagnostic exactly when the record names a protocol that no directory entry has; nothing for a record without `protocol` |
| TokenDetails.ChainValidation.ValidateProtocol | scripts/_/validate-token-details.ts:83-101 | appends exactly `ProtocolRule` |
| TokenDetails.SymbolRule | scripts/_/validate-token-details.ts:21-25 | one diagnostic exactly when the symbol differs from the on-chain symbol, compared exactly |
| TokenDetails.ChainValidation.ValidateSymbol | scripts/_/validate-token-details.ts:12-26 | appends exactly `SymbolRule` |
| TokenDetails.PrefixText | scripts/_/validate-token-details.ts:64-67 | the prefix of the first directory entry with the id, or the text `undefined` when there is none |
| TokenDetails.SymbolOrPlaceholder | scripts/_/validate-token-details.ts:56 | the contributed symbol is never empty: it is the found record's symbol whenever that is non-empty, and otherwise `FIX_MISSING_SYMBOL` |
| TokenDetails.UnderlyingSymbols | scripts/_/validate-token-details.ts:42-56 | one symbol per underlying address, none of them empty |
| TokenDetails.UnderlyingSymbolsIndex | scripts/_/validate-token-details.ts:42-56 | the i-th derived symbol comes from looking up the i-th underlying address |
| TokenDetails.UnderlyingSymbolAt | scripts/_/validate-token-details.ts:42-56 | an unmatched address contributes `FIX_MISSING_SYMBOL`; a matched one contributes its first match's symbol, or the placeholder when that symbol is empty |
| TokenDetails.DerivedName | scripts/_/validate-token-details.ts:55-57 | with at least one underlying address, the derived name starts with the first contributed symbol and so is never empty |
| TokenDetails.MissingUnderlyings | scripts/_/validate-token-details.ts:47-51 | no more diagnostics than underlying addresses, each a missing-underlying diagnostic naming the record (`MissingUnderlyingsExactly` pins them to the unresolved addresses) |
| TokenDetails.CompositeNameVerdict | scripts/_/validate-token-details.ts:59-75 | no diagnostic exactly when the name is the derived name, the on-chain name or the on-chain symbol, or there is no protocol, or the name is the prefixed derived name; otherwise one, carrying both alternatives |
| TokenDetails.SimpleNameRule | scripts/_/validate-token-details.ts:76-78 | one diagnostic exactly when the name is neither the on-chain name nor the on-chain symbol |
| TokenDetails.NameRule | scripts/_/validate-token-details.ts:41-78 | a simple record gets at most one diagnostic; a composite record gets its missing-underlying diagnostics first, then at most one more |
| TokenDetails.ChainValidation.LookUpUnderlying | scripts/_/validate-token-details.ts:42-53 | the loop appends the missing-underlying diagnostics in declared order and returns the symbols the addresses contribute |
| TokenDetails.ChainValidation.ValidateName | scripts/_/validate-token-details.ts:28-79 | appends exactly `NameRule` |
| TokenDetails.RecordRules | scripts/_/validate-token-details.ts:159-186 | after the duplicate step, the rules' diagnostics come in the order mint URL, protocol, symbol, name, whatever the collaborators append between them, and none is a duplicate-address diagnostic |
| TokenDetails.TokenDiagnostics | scripts/_/validate-token-details.ts:151-186 | the rules' diagnostics for one record come in the order duplicate, mint URL, protocol, symbol, name; the first diagnostic is a duplicate-address one exactly when the address was seen before |
| TokenDetails.ChainValidation.ValidateRecord | scripts/_/validate-token-details.ts:159-186 | appends, in order: the decimals and image diagnostics, the mint-URL rule, the protocol rule, the fetchers' diagnostics, the symbol rule, the name rule |
| TokenDetails.ChainValidation.ValidateTokenDetails | scripts/_/validate-token-details.ts:138-187 | appends the duplicate step and then the rest of the record to the old list, which is kept unchanged; the set gains the lower-cased address |
| TokenDetails.DuplicatePass | scripts/_/validate-token-details.ts:151-156 | a list processed in order yields no more diagnostics than records, all of them duplicate-address diagnostics (`DuplicateRuleAt` says which records get one) |
| TokenDetails.ChainValidation.CheckDuplicates | scripts/validate-tokens.ts:33-45 | starting from a fresh set, the duplicate steps of all records append `DuplicatePass`, and the set ends as the lower-cased addresses of the list |
| TokenDetails.RecordsPass | scripts/validate-tokens.ts:35-46 | the diagnostics after the duplicate steps, record by record in list order, hold no duplicate-address diagnostic |
| TokenDetails.ChainDiagnostics | scripts/validate-tokens.ts:23-46 | the schema diagnostics lead, and the duplicate-address diagnostics of the run are exactly those of the duplicate pass, in its order |
| TokenDetails.ChainValidation.ValidateRecords | scripts/validate-tokens.ts:36-46 | the rest of every record is appended in list order |
| TokenDetails.ValidateTokensByChain | scripts/validate-tokens.ts:23-46 | one chain's diagnostics are the schema diagnostics, then every duplicate step, then the rest of every record; the same inputs always give the same list |
| TokenDetails.SeenMembers | scripts/_/validate-token-details.ts:151-157 | the set built over a list holds exactly the lower-cased addresses of its records |
| TokenDetailsProperties.DuplicateRuleAt | scripts/_/validate-token-details.ts:151-157 | record i gets a duplicate diagnostic exactly when an earlier record has the same address ignoring case |
| TokenDetailsProperties.DuplicatePassCount | scripts/_/validate-token-details.ts:151-157 | duplicate diagnostics plus distinct lower-cased addresses equal the number of records |
| TokenDetailsProperties.DuplicatePassDistinct | scripts/_/validate-token-details.ts:151-157 | addresses that are distinct ignoring case yield no duplicate diagnostic |
| TokenDetailsProperties.DuplicateExample | scripts/_/validate-token-details.ts:151-157 | `0xAA` followed by `0xaa` yields exactly one diagnostic, naming `0xaa` |
| TokenDetailsProperties.MissingUnderlyingsExactly | scripts/_/validate-token-details.ts:42-53 | the missing-underlying diagnostics are one per unresolved address, in declared order |
| TokenDetailsProperties.DerivedNameSplits | scripts/_/validate-token-details.ts:55-57 | when no symbol contains `-`, the derived name splits back into the underlying symbols in declared order |
| TokenDetailsProperties.CompositeNameRule | scripts/_/validate-token-details.ts:41-75 | a composite record's name diagnostics number the unresolved addresses, plus one exactly when the name is not accepted, even when the name passes |
| TokenDetailsProperties.ChainDuplicateCount | scripts/validate-tokens.ts:33-46 | a chain run holds one duplicate diagnostic per record beyond the first of each address, whatever the other diagnostics |
| TokenDetailsProperties.LookupsInExample | scripts/_/validate-token-details.ts:43-45 | addresses are found ignoring case, and an address with no record is not found |
| TokenDetailsProperties.SymbolsInExample | scripts/_/validate-token-details.ts:55-56 | two found underlying records contribute their symbols in declared order |
| TokenDetailsProperties.SymbolsWithPlaceholder | scripts/_/validate-token-details.ts:55-56 | a missing underlying record contributes `FIX_MISSING_SYMBOL` |
| TokenDetailsProperties.DerivedNameExample | scripts/_/validate-token-details.ts:55-57 | WBERA and HONEY derive `WBERA-HONEY` |
| TokenDetailsProperties.DerivedNameWithPlaceholder | scripts/_/validate-token-details.ts:55-57 | WBERA and a missing record derive `WBERA-FIX_MISSING_SYMBOL` |
| TokenDetailsProperties.MissingUnderlyingExample | scripts/_/validate-token-details.ts:47-51 | one missing underlying address yields exactly one diagnostic naming it |
| TokenDetailsProperties.CompositeNameAccepted | scripts/_/validate-token-details.ts:59 | `WBERA-HONEY` under `kodiak`, whose prefix is `kdk`, passes because it equals the derived name |
| TokenDetailsProperties.NoProtocolFallback | scripts/_/validate-token-details.ts:63 | a composite record without `protocol` passes the name rule whatever its name and the on-chain values, once its underlying records are found |
| TokenDetailsProperties.PrefixedCompositeNameAccepted | scripts/_/validate-token-details.ts:63-68 | `kdkWBERA-HONEY` under `kodiak` with prefix `kdk` passes |
| TokenDetailsProperties.CompositeNameRejected | scripts/_/validate-token-details.ts:63-71 | `WBERA-HONEY-V2` under `kodiak` fails once, listing `kdkWBERA-HONEY` and `WBERA-HONEY` |
| TokenDetailsProperties.UnknownProtocolPrefix | scripts/_/validate-token-details.ts:64-71 | an unknown protocol makes the expected name `undefinedWBERA-HONEY` |
| TokenDetailsProperties.SymbolCaseMatters | scripts/_/validate-token-details.ts:21-25 | `Honey` against `HONEY` fails |
| TokenDetailsProperties.MintUrlExamples | scripts/_/validate-token-details.ts:114-135 | a `bex` URL without the pools prefix fails once; a `kodiak` record fails with another URL and passes with the one built from its address |
| JsonToTs.Project | scripts/json-to-ts.ts:53-59 | the projected entry has a non-empty image |
| JsonToTs.WithImage | scripts/json-to-ts.ts:52 | a record is kept exactly when it is in the list and has a non-empty image |
| JsonToTs.ProjectAll | scripts/json-to-ts.ts:53-59 | one entry per kept record, in order, each the record's five fields |
| JsonToTs.SymbolLe | scripts/json-to-ts.ts:60 | a symbol sorts before or with every symbol it is a prefix of |
| JsonToTs.SymbolLeFirstDifference | scripts/json-to-ts.ts:60 | a symbol sorts before or with another exactly when it is a prefix of it, or its character at the first differing position is smaller |
| JsonToTs.SymbolLeReflexive | scripts/json-to-ts.ts:60 | every symbol compares at most itself |
| JsonToTs.SymbolLeTotal | scripts/json-to-ts.ts:60 | any two symbols are comparable |
| JsonToTs.SymbolLeAntisymmetric | scripts/json-to-ts.ts:60 | symbols that compare both ways are equal |
| JsonToTs.SymbolLeTransitive | scripts/json-to-ts.ts:60 | the symbol order is transitive |
| JsonToTs.Insert | scripts/json-to-ts.ts:60 | inserting into a sorted list keeps it sorted and adds exactly the new entry |
| JsonToTs.SortBySymbol | scripts/json-to-ts.ts:60 | the result is sorted by symbol and is a permutation of the input |
| JsonToTs.SortStable | scripts/json-to-ts.ts:60 | entries sharing a symbol keep their input order |
| JsonToTs.PublishTokens | scripts/json-to-ts.ts:50-60 | the published list is sorted by symbol, a permutation of the projected records with an image, and as long as the number of such records |
| JsonToTs.PublishedFromSource | scripts/json-to-ts.ts:52-59 | every published entry has a non-empty image and is the projection of a record with an image |
| JsonToTs.SourcePublished | scripts/json-to-ts.ts:52-59 | every record with an image is published |
| JsonToTs.PublishStable | scripts/json-to-ts.ts:60 | records sharing a symbol are published in their list order |
| JsonToTs.ExportedList | scripts/json-to-ts.ts:47-67 | a `tokens` list is exported as exactly `PublishTokens` of the records (so sorted, a stable permutation of the projected image-bearing records, by the lemmas above); every other asset list is exported unchanged |
| JsonToTs.JsonFiles | scripts/json-to-ts.ts:38 | a file is converted exactly when it is listed and its name ends in `.json` |
| JsonToTs.OutputName | scripts/json-to-ts.ts:42 | a name without `.json` is kept; a name that contains `.json` comes out two characters shorter |
| JsonToTs.OutputNameOfJson | scripts/json-to-ts.ts:42 | a name whose only `.json` is its extension gets the extension `.ts` |
| JsonToTs.OutputNameExample | scripts/json-to-ts.ts:42 | `a.json` becomes `a.ts` |
| JsonToTs.OutputNameReplacesFirst | scripts/json-to-ts.ts:42 | `a.json.json` becomes `a.ts.json`, because only the first `.json` is replaced |

## Left out

- The on-chain lookups and metadata checks are not modelled: `getTokenSymbol`, `getTokenName`, `validateDecimals` and `validateTokenImage`. For each record, `TokenDetails.Collaborators` supplies the on-chain symbol and name as plain strings, together with the diagnostics those collaborators append, as opaque texts. The schema validator's diagnostics are an opaque input too.
- Loading the protocol directory from `src/protocols.json` is not modelled. The directory is a parameter, a sequence of (id, prefix) pairs.
- viem's `isAddressEqual` is modelled as equality after ASCII lower-casing. The exception it throws on a malformed address is not modelled.
- `toLowerCase` is modelled on ASCII letters only, which is all a hexadecimal address contains.
- The interleaving of records after the first `await` is not modelled. The source lets the rest of each record's diagnostics arrive in any order, because they depend on when the on-chain lookups complete. The model fixes one schedule: list order. The duplicate steps all run first, in list order. In the source each record's duplicate step runs before its first `await`, but `validateDecimals` is entered synchronously at `scripts/_/validate-token-details.ts:159`, so any diagnostic it appends before its own first `await` lands between one record's duplicate step and the next one's; the model puts every decimals diagnostic after all duplicate steps. The property `ChainDuplicateCount` does not depend on the schedule.
- Most of `scripts/validate-tokens.ts` is not modelled: listing the chain files, building the RPC client, the status output, running chains concurrently, and the `Unsupported chain` error.
- JsonToTs.SymbolLe: `localeCompare` is replaced by code-point order on Dafny characters. Locale collation, such as case-insensitive primary ordering, is not modelled.
- JsonToTs.SortBySymbol: any stable sort that respects the order gives the same result. Insertion sort stands in for the engine's sort.
- The file-system work in `scripts/json-to-ts.ts` is not modelled: reading, writing, creating and removing directories, `JSON.parse`, the `JSON.stringify` formatting, and the log lines. The loop over asset types and files only drives that I/O.
- The protocols module (`scripts/json-to-ts.ts:81`) writes the directory out unchanged, so there is no transformation to model.
- The source does not change any token record or the token list. The model gets this for free, because records and lists are values.
