/** The publishing step: the chain token lists become data modules holding
    only the records with an image, cut down to five fields and ordered by
    symbol; the other asset lists pass through unchanged; and the data files
    are picked and renamed by their `.json` extension. */
module JsonToTs {
  import opened Lists
  import opened Strings
  import opened Registry

  // ---------------------------------------------------------------------
  // The published record.
  // ---------------------------------------------------------------------

  /** One entry of a published token list: exactly these five fields. */
  datatype PublishedToken = PublishedToken(
    address: string,
    decimals: int,
    image: string,
    name: string,
    symbol: string)

  /** `!!token.image`: the key is present and its value is not the empty
      string. */
  predicate HasImage(token: Token)
  {
    token.image.Some? && token.image.value != ""
  }

  /** The record cut down to the published fields. */
  function Project(token: Token): (r: PublishedToken)
    requires HasImage(token)
    ensures r.image != ""
  {
    PublishedToken(token.address, token.decimals, token.image.value, token.name, token.symbol)
  }

  /** The records with an image, in list order. */
  function WithImage(tokens: seq<Token>): (r: seq<Token>)
    ensures forall t :: t in r <==> t in tokens && HasImage(t)
  {
    Filter(tokens, HasImage)
  }

  function ProjectAll(tokens: seq<Token>): (r: seq<PublishedToken>)
    requires forall i :: 0 <= i < |tokens| ==> HasImage(tokens[i])
    ensures |r| == |tokens|
    ensures forall i :: 0 <= i < |tokens| ==> r[i] == Project(tokens[i])
  {
    seq(|tokens|, i requires 0 <= i < |tokens| => Project(tokens[i]))
  }

  // ---------------------------------------------------------------------
  // The order on symbols.
  // ---------------------------------------------------------------------

  /** The length of the longest common prefix of `a` and `b`. */
  function CommonPrefix(a: string, b: string): (k: nat)
    decreases |a|
    ensures k <= |a| && k <= |b| && a[..k] == b[..k]
    ensures k < |a| && k < |b| ==> a[k] != b[k]
  {
    if a != [] && b != [] && a[0] == b[0] then 1 + CommonPrefix(a[1..], b[1..]) else 0
  }

  /** Code-point order on strings, standing for `a.localeCompare(b) <= 0`:
      the first differing character decides, and a prefix comes first. */
  predicate SymbolLe(a: string, b: string)
    decreases |a|
    ensures a <= b ==> SymbolLe(a, b)
  {
    a == [] || (b != [] && (a[0] < b[0] || (a[0] == b[0] && SymbolLe(a[1..], b[1..]))))
  }

  /** The order compares at the first position where the symbols differ;
      a symbol that runs out first (a prefix) sorts first. */
  lemma {:induction false} SymbolLeFirstDifference(a: string, b: string)
    decreases |a|
    ensures SymbolLe(a, b) <==>
      var k := CommonPrefix(a, b);
      k == |a| || (k < |b| && a[k] < b[k])
  {
    if a != [] && b != [] && a[0] == b[0] {
      SymbolLeFirstDifference(a[1..], b[1..]);
    }
  }

  lemma {:induction false} SymbolLeReflexive(a: string)
    ensures SymbolLe(a, a)
    decreases |a|
  {
    if a != [] {
      SymbolLeReflexive(a[1..]);
    }
  }

  lemma {:induction false} SymbolLeTotal(a: string, b: string)
    ensures SymbolLe(a, b) || SymbolLe(b, a)
    decreases |a|
  {
    if a != [] && b != [] && a[0] == b[0] {
      SymbolLeTotal(a[1..], b[1..]);
    }
  }

  lemma {:induction false} SymbolLeAntisymmetric(a: string, b: string)
    requires SymbolLe(a, b) && SymbolLe(b, a)
    ensures a == b
    decreases |a|
  {
    if a != [] {
      SymbolLeAntisymmetric(a[1..], b[1..]);
      assert a == [a[0]] + a[1..] && b == [b[0]] + b[1..];
    }
  }

  lemma {:induction false} SymbolLeTransitive(a: string, b: string, c: string)
    requires SymbolLe(a, b) && SymbolLe(b, c)
    ensures SymbolLe(a, c)
    decreases |a|
  {
    if a != [] && a[0] == b[0] && b[0] == c[0] {
      SymbolLeTransitive(a[1..], b[1..], c[1..]);
    }
  }

  /** Every entry's symbol is at most every later entry's symbol. */
  predicate SortedBySymbol(s: seq<PublishedToken>)
  {
    forall i, j :: 0 <= i < j < |s| ==> SymbolLe(s[i].symbol, s[j].symbol)
  }

  // ---------------------------------------------------------------------
  // Sorting: `Array.prototype.sort` is stable, so entries with the same
  // symbol keep their list order.
  // ---------------------------------------------------------------------

  /** `x` placed before the first entry whose symbol is not below its own. */
  function Insert(x: PublishedToken, s: seq<PublishedToken>): (r: seq<PublishedToken>)
    requires SortedBySymbol(s)
    ensures SortedBySymbol(r)
    ensures multiset(r) == multiset(s) + multiset{x}
  {
    if s == [] then [x]
    else if SymbolLe(x.symbol, s[0].symbol) then
      InsertFront(x, s);
      [x] + s
    else
      var rest := Insert(x, s[1..]);
      SymbolLeTotal(x.symbol, s[0].symbol);
      InsertBehind(x, s, rest);
      assert s == [s[0]] + s[1..];
      [s[0]] + rest
  }

  lemma InsertFront(x: PublishedToken, s: seq<PublishedToken>)
    requires SortedBySymbol(s) && s != [] && SymbolLe(x.symbol, s[0].symbol)
    ensures SortedBySymbol([x] + s)
  {
    forall j | 0 < j < |[x] + s|
      ensures SymbolLe(x.symbol, ([x] + s)[j].symbol)
    {
      if j > 1 {
        SymbolLeTransitive(x.symbol, s[0].symbol, s[j - 1].symbol);
      }
    }
  }

  lemma InsertBehind(x: PublishedToken, s: seq<PublishedToken>, rest: seq<PublishedToken>)
    requires SortedBySymbol(s) && s != [] && SymbolLe(s[0].symbol, x.symbol)
    requires SortedBySymbol(rest) && multiset(rest) == multiset(s[1..]) + multiset{x}
    ensures SortedBySymbol([s[0]] + rest)
  {
    forall j | 0 <= j < |rest|
      ensures SymbolLe(s[0].symbol, rest[j].symbol)
    {
      assert rest[j] in multiset(rest);
      if rest[j] != x {
        assert rest[j] in multiset(s[1..]);
        var k :| 0 <= k < |s[1..]| && s[1..][k] == rest[j];
        assert s[k + 1] == rest[j];
      }
    }
  }

  /** Insertion sort by symbol: sorted, and a permutation of its input. */
  function SortBySymbol(s: seq<PublishedToken>): (r: seq<PublishedToken>)
    ensures SortedBySymbol(r)
    ensures multiset(r) == multiset(s)
  {
    if s == [] then []
    else
      assert s == [s[0]] + s[1..];
      Insert(s[0], SortBySymbol(s[1..]))
  }

  /** The entries with symbol `k`, as a filter predicate. */
  function SymbolIs(k: string): PublishedToken -> bool
  {
    (p: PublishedToken) => p.symbol == k
  }

  lemma {:induction false} InsertStable(x: PublishedToken, s: seq<PublishedToken>, k: string)
    requires SortedBySymbol(s)
    ensures Filter(Insert(x, s), SymbolIs(k)) == Filter([x] + s, SymbolIs(k))
  {
    if s != [] && !SymbolLe(x.symbol, s[0].symbol) {
      var rest := Insert(x, s[1..]);
      InsertStable(x, s[1..], k);
      SymbolLeReflexive(x.symbol);
      assert x.symbol != s[0].symbol;
      assert Insert(x, s) == [s[0]] + rest;
      FilterConcat([s[0]], rest, SymbolIs(k));
      FilterConcat([x], s[1..], SymbolIs(k));
      FilterConcat([s[0]], s[1..], SymbolIs(k));
      FilterConcat([x], s, SymbolIs(k));
      assert s == [s[0]] + s[1..];
    }
  }

  /** The sort is stable: the entries sharing any one symbol come out in the
      order they went in. */
  lemma {:induction false} SortStable(s: seq<PublishedToken>, k: string)
    ensures Filter(SortBySymbol(s), SymbolIs(k)) == Filter(s, SymbolIs(k))
  {
    if s != [] {
      SortStable(s[1..], k);
      InsertStable(s[0], SortBySymbol(s[1..]), k);
      FilterConcat([s[0]], SortBySymbol(s[1..]), SymbolIs(k));
      FilterConcat([s[0]], s[1..], SymbolIs(k));
      assert s == [s[0]] + s[1..];
    }
  }

  // ---------------------------------------------------------------------
  // The token chain.
  // ---------------------------------------------------------------------

  /** `tokens.filter(...).map(...).sort(...)`: the published token list. */
  function PublishTokens(tokens: seq<Token>): (r: seq<PublishedToken>)
    ensures SortedBySymbol(r)
    ensures multiset(r) == multiset(ProjectAll(WithImage(tokens)))
    ensures |r| == |WithImage(tokens)|
  {
    var kept := WithImage(tokens);
    forall i | 0 <= i < |kept| ensures HasImage(kept[i]) {
      assert kept[i] in kept;
    }
    var projected := ProjectAll(kept);
    var sorted := SortBySymbol(projected);
    assert |sorted| == |multiset(sorted)| == |projected|;
    sorted
  }

  /** Every published entry comes from a record with an image, and carries
      that record's five fields unchanged. */
  lemma PublishedFromSource(tokens: seq<Token>, p: PublishedToken)
    requires p in PublishTokens(tokens)
    ensures p.image != ""
    ensures exists t :: t in tokens && HasImage(t) && p == Project(t)
  {
    var kept := WithImage(tokens);
    assert p in multiset(PublishTokens(tokens));
    assert p in multiset(ProjectAll(kept));
    var i :| 0 <= i < |ProjectAll(kept)| && ProjectAll(kept)[i] == p;
    assert kept[i] in kept;
  }

  /** Every record with an image is published. */
  lemma SourcePublished(tokens: seq<Token>, t: Token)
    requires t in tokens && HasImage(t)
    ensures Project(t) in PublishTokens(tokens)
  {
    var kept := WithImage(tokens);
    var i :| 0 <= i < |kept| && kept[i] == t;
    assert ProjectAll(kept)[i] == Project(t);
    assert Project(t) in multiset(ProjectAll(kept));
    assert Project(t) in multiset(PublishTokens(tokens));
  }

  /** Records sharing a symbol are published in their list order. */
  lemma PublishStable(tokens: seq<Token>, k: string)
    ensures Filter(PublishTokens(tokens), SymbolIs(k)) == Filter(ProjectAll(WithImage(tokens)), SymbolIs(k))
  {
    var kept := WithImage(tokens);
    SortStable(ProjectAll(kept), k);
  }

  // ---------------------------------------------------------------------
  // One data module.
  // ---------------------------------------------------------------------

  /** What a data module exports: the published token list, or another
      asset list as read. */
  datatype Exported<E> = Tokens(published: seq<PublishedToken>) | Verbatim(entries: seq<E>)

  /** The list the module for `assetType` exports: only `tokens` lists are
      filtered, projected and sorted. */
  function ExportedList<E>(assetType: string, tokens: seq<Token>, entries: seq<E>): (r: Exported<E>)
    ensures assetType == "tokens" <==> r.Tokens?
    ensures r.Tokens? ==> r.published == PublishTokens(tokens)
    ensures r.Tokens? ==> SortedBySymbol(r.published) && |r.published| == |WithImage(tokens)|
    ensures r.Verbatim? ==> r.entries == entries
  {
    if assetType == "tokens" then Tokens(PublishTokens(tokens)) else Verbatim(entries)
  }

  // ---------------------------------------------------------------------
  // File names.
  // ---------------------------------------------------------------------

  const JSON_EXTENSION := ".json"
  const TS_EXTENSION := ".ts"

  /** The directory entries the step converts, in listing order. */
  function JsonFiles(files: seq<string>): (r: seq<string>)
    ensures |r| <= |files|
    ensures forall f :: f in r <==> f in files && EndsWith(f, JSON_EXTENSION)
  {
    Filter(files, (f: string) => EndsWith(f, JSON_EXTENSION))
  }

  /** `jsonFile.replace('.json', '.ts')`: the first `.json` is replaced. */
  function OutputName(file: string): (r: string)
    ensures (forall j: nat :: !OccursAt(file, JSON_EXTENSION, j)) ==> r == file
    ensures (exists j: nat :: OccursAt(file, JSON_EXTENSION, j)) ==> |r| == |file| - 2
  {
    ReplaceFirst(file, JSON_EXTENSION, TS_EXTENSION)
  }

  /** A name whose only `.json` is its extension gets the extension `.ts`. */
  lemma OutputNameOfJson(stem: string)
    requires forall j: nat :: !OccursAt(stem, JSON_EXTENSION, j)
    ensures OutputName(stem + JSON_EXTENSION) == stem + TS_EXTENSION
  {
    var file := stem + JSON_EXTENSION;
    var n := |stem|;
    assert OccursAt(file, JSON_EXTENSION, n) by {
      assert file[n..n + 5] == JSON_EXTENSION;
    }
    forall j | 0 <= j < n
      ensures !OccursAt(file, JSON_EXTENSION, j)
    {
      if j + 5 <= n {
        assert stem[j..j + 5] == file[j..j + 5];
        assert !OccursAt(stem, JSON_EXTENSION, j);
      } else {
        // The `.` of the extension would have to match a letter of `json`.
        assert file[n] == '.';
      }
    }
    assert file[..n] == stem && file[n + 5..] == [];
  }

  /** `a.json` becomes `a.ts`. */
  lemma OutputNameExample(stem: string)
    requires stem == "a"
    ensures OutputName(stem + JSON_EXTENSION) == "a.ts"
  {
    OutputNameOfJson(stem);
  }

  /** In `a.json.json` only the first `.json` is replaced. */
  lemma OutputNameReplacesFirst(file: string)
    requires file == "a.json.json"
    ensures OutputName(file) == "a.ts.json"
  {
    assert OccursAt(file, JSON_EXTENSION, 1) by {
      assert file[1..6] == JSON_EXTENSION;
    }
    assert file[0] != JSON_EXTENSION[0];
    assert file[..1] + TS_EXTENSION + file[6..] == "a.ts.json";
  }
}
