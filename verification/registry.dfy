/** The curated records the scripts read: a chain's token records and the
    protocol directory, with the two lookups into them. */
module Registry {
  import opened Lists
  import opened Strings

  /** One record of a chain's token list. Optional keys are `Option`s: `None`
      stands for a key the record does not have. */
  datatype Token = Token(
    address: string,
    symbol: string,
    name: string,
    decimals: int,
    image: Option<string>,
    protocol: Option<string>,
    mintUrl: Option<string>,
    underlyingTokens: Option<seq<string>>)

  /** One entry of the protocol directory. */
  datatype Protocol = Protocol(id: string, prefix: string)

  /** viem's `isAddressEqual` on well-formed addresses: equality after
      lower-casing both sides, that is, the same length and the same
      characters position by position once case is ignored. */
  predicate SameAddress(a: string, b: string)
    ensures SameAddress(a, b) ==> |a| == |b|
  {
    ToLower(a) == ToLower(b)
  }

  lemma SameAddressCharwise(a: string, b: string)
    ensures SameAddress(a, b) <==>
      |a| == |b| && forall i :: 0 <= i < |a| ==> LowerChar(a[i]) == LowerChar(b[i])
  {
    if |a| == |b| && forall i :: 0 <= i < |a| ==> LowerChar(a[i]) == LowerChar(b[i]) {
      assert forall i :: 0 <= i < |a| ==> ToLower(a)[i] == ToLower(b)[i];
    }
  }

  /** `tokens.find(({ address }) => isAddressEqual(address, underlying))`:
      the first record whose address matches, ignoring case. */
  function FindToken(tokens: seq<Token>, address: string): (r: Option<Token>)
    ensures r.None? <==> forall i :: 0 <= i < |tokens| ==> !SameAddress(tokens[i].address, address)
    ensures r.Some? ==> SameAddress(r.value.address, address)
  {
    match IndexWhere(tokens, (t: Token) => SameAddress(t.address, address))
    case None => None
    case Some(i) => Some(tokens[i])
  }

  /** `protocols.find(({ id }) => id === protocol)`: the first directory entry
      whose id is exactly `id`. */
  function FindProtocol(protocols: seq<Protocol>, id: string): (r: Option<Protocol>)
    ensures r.None? <==> forall i :: 0 <= i < |protocols| ==> protocols[i].id != id
    ensures r.Some? ==> r.value.id == id
  {
    match IndexWhere(protocols, (p: Protocol) => p.id == id)
    case None => None
    case Some(i) => Some(protocols[i])
  }

  /** The record `find` returns is the first match. */
  lemma FindTokenFirst(tokens: seq<Token>, address: string, k: nat)
    requires k < |tokens| && SameAddress(tokens[k].address, address)
    requires forall j :: 0 <= j < k ==> !SameAddress(tokens[j].address, address)
    ensures FindToken(tokens, address) == Some(tokens[k])
  {
    var r := IndexWhere(tokens, (t: Token) => SameAddress(t.address, address));
    assert r.Some?;
    assert !(r.value < k) && !(k < r.value);
  }

  /** The directory entry `find` returns is the first entry with that id. */
  lemma FindProtocolFirst(protocols: seq<Protocol>, id: string, k: nat)
    requires k < |protocols| && protocols[k].id == id
    requires forall j :: 0 <= j < k ==> protocols[j].id != id
    ensures FindProtocol(protocols, id) == Some(protocols[k])
  {
    var r := IndexWhere(protocols, (p: Protocol) => p.id == id);
    assert r.Some?;
    assert !(r.value < k) && !(k < r.value);
  }
}
