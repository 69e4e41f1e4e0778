/** Which request headers the curl snippet echoes as `-H` options, and how a Basic
    credential in the `Authorization` header is recognised and decoded. */
module HeaderFilters {

  import opened Wrappers
  import opened Text

  /** One header entry of `HttpHeaders`: the name as first spelled, and its values
      in order. */
  datatype Header = Header(name: string, values: seq<string>)

  type Headers = seq<Header>

  const AUTHORIZATION: string := "Authorization"
  const HOST: string := "Host"
  const CONTENT_LENGTH: string := "Content-Length"
  const BASIC_PREFIX: string := "Basic "

  /** `HttpHeaders` keys its entries case-insensitively, so no two entries carry
      names that differ only in case. */
  predicate WellFormed(hs: Headers) {
    forall i, j :: 0 <= i < j < |hs| ==> !EqualsIgnoreCase(hs[i].name, hs[j].name)
  }

  /** `HttpHeaders.get(name)`: the values of the entry whose name matches `name`
      ignoring case, `None` for Java's `null`. */
  function GetHeader(hs: Headers, name: string): (r: Option<seq<string>>)
    ensures r.None? <==> forall i :: 0 <= i < |hs| ==> !EqualsIgnoreCase(hs[i].name, name)
    ensures r.Some? ==> exists i :: 0 <= i < |hs| && EqualsIgnoreCase(hs[i].name, name) && hs[i].values == r.value
  {
    if |hs| == 0 then None
    else if EqualsIgnoreCase(hs[0].name, name) then Some(hs[0].values)
    else
      var r := GetHeader(hs[1..], name);
      assert forall i :: 1 <= i < |hs| ==> hs[i] == hs[1..][i - 1];
      r
  }

  /** `BasicAuthHeaderFilter.isBasicAuthHeader`: the value list is present, not
      empty, and its first value starts with "Basic ". */
  predicate IsBasicAuthHeader(values: Option<seq<string>>) {
    values.Some? && |values.value| > 0 && StartsWith(values.value[0], BASIC_PREFIX)
  }

  /** Standard Base64 decoding (section 4 of RFC 4648) followed by the conversion of
      the decoded bytes to text; `None` when the input is not valid Base64. */
  type Base64Decoder = string -> Option<string>

  /** The Base64 text of a Basic credential could not be decoded. */
  datatype CurlError = MalformedCredential(encoded: string)

  /** `decodeBasicAuthHeader`: the first value after its six-character prefix,
      Base64-decoded; later values play no part. */
  function DecodeBasicAuthHeader(values: seq<string>, decode: Base64Decoder): (r: Result<string, CurlError>)
    requires IsBasicAuthHeader(Some(values))
    ensures r.Ok? <==> decode(values[0][|BASIC_PREFIX|..]).Some?
    ensures r.Ok? ==> r.value == decode(values[0][|BASIC_PREFIX|..]).value
    ensures r.Err? ==> r.error == MalformedCredential(values[0][|BASIC_PREFIX|..])
  {
    var encoded := values[0][6..];
    match decode(encoded)
    case Some(credentials) => Ok(credentials)
    case None => Err(MalformedCredential(encoded))
  }

  /** The closed set of header filter implementations. */
  datatype HeaderFilter =
    | NamedHeaderFilter(filtered: string)
    | BasicAuthHeaderFilter

  /** `HeaderFilter.allow`. The named filter compares names ignoring case; the
      Basic-auth filter compares with the exact spelling "Authorization". */
  predicate Allow(f: HeaderFilter, name: string, values: seq<string>) {
    match f
    case NamedHeaderFilter(filtered) => !EqualsIgnoreCase(filtered, name)
    case BasicAuthHeaderFilter => !(AUTHORIZATION == name && IsBasicAuthHeader(Some(values)))
  }

  /** The filters registered once for every curl snippet. */
  const HEADER_FILTERS: seq<HeaderFilter> :=
    [NamedHeaderFilter(HOST), NamedHeaderFilter(CONTENT_LENGTH), BasicAuthHeaderFilter]

  /** The loop of `allowedHeader`: stops with `false` at the first filter that
      denies the header. */
  function AllowedBy(fs: seq<HeaderFilter>, h: Header): (r: bool)
    ensures r <==> forall i :: 0 <= i < |fs| ==> Allow(fs[i], h.name, h.values)
  {
    if |fs| == 0 then true
    else if !Allow(fs[0], h.name, h.values) then false
    else
      var r := AllowedBy(fs[1..], h);
      assert forall i :: 1 <= i < |fs| ==> fs[i] == fs[1..][i - 1];
      r
  }

  predicate AllowedHeader(h: Header) {
    AllowedBy(HEADER_FILTERS, h)
  }

  /** The filters combine by AND, so the (hash-set) order in which they are tried
      does not change the verdict. */
  lemma FilterOrderIrrelevant(fs: seq<HeaderFilter>, gs: seq<HeaderFilter>, h: Header)
    requires multiset(fs) == multiset(gs)
    ensures AllowedBy(fs, h) == AllowedBy(gs, h)
  {
    forall i | 0 <= i < |gs|
      ensures gs[i] in fs
    {
      assert gs[i] in multiset(gs);
    }
    forall i | 0 <= i < |fs|
      ensures fs[i] in gs
    {
      assert fs[i] in multiset(fs);
    }
  }

  /** A header is echoed exactly when its name is neither Host nor Content-Length in
      any letter case, and it is not a Basic credential under the exact name
      "Authorization". */
  lemma AllowedHeaderIff(h: Header)
    ensures AllowedHeader(h) <==>
      && !EqualsIgnoreCase(HOST, h.name)
      && !EqualsIgnoreCase(CONTENT_LENGTH, h.name)
      && !(h.name == AUTHORIZATION && IsBasicAuthHeader(Some(h.values)))
  {
    assert HEADER_FILTERS[0] == NamedHeaderFilter(HOST);
    assert HEADER_FILTERS[1] == NamedHeaderFilter(CONTENT_LENGTH);
    assert HEADER_FILTERS[2] == BasicAuthHeaderFilter;
  }
}
