/** What the curl snippet's option string promises about a request: the fixed
    order of the options, which headers are echoed, when credentials, the method
    and a body are emitted. */
module CurlRequestProperties {

  import opened Wrappers
  import opened Text
  import opened Parameters
  import opened HeaderFilters
  import opened CurlRequest
  import opened Seqs
  import Reconciler

  // ----- Order -----

  /** `x` may come before `y`: a lower rank, or two options of a kind that repeats
      (headers, form fields). */
  predicate MayPrecede(x: Opt, y: Opt) {
    Rank(x) < Rank(y) || (Rank(x) == Rank(y) && (x.HeaderLine? || x.Form?))
  }

  predicate Ordered(os: seq<Opt>) {
    forall i, j :: 0 <= i < j < |os| ==> MayPrecede(os[i], os[j])
  }

  predicate Separated(a: seq<Opt>, b: seq<Opt>) {
    forall i, j :: 0 <= i < |a| && 0 <= j < |b| ==> MayPrecede(a[i], b[j])
  }

  lemma OrderedConcat(a: seq<Opt>, b: seq<Opt>)
    requires Ordered(a) && Ordered(b) && Separated(a, b)
    ensures Ordered(a + b)
  {
    forall i, j | 0 <= i < j < |a + b|
      ensures MayPrecede((a + b)[i], (a + b)[j])
    {
      if j < |a| {
        assert (a + b)[i] == a[i] && (a + b)[j] == a[j];
      } else if i < |a| {
        assert (a + b)[i] == a[i] && (a + b)[j] == b[j - |a|];
      } else {
        assert (a + b)[i] == b[i - |a|] && (a + b)[j] == b[j - |a|];
      }
    }
  }

  /** Every option the header writer emits is a header line. */
  lemma {:induction false} HeaderOptionsKind(hs: Headers)
    ensures forall i :: 0 <= i < |HeaderOptions(hs)| ==> HeaderOptions(hs)[i].HeaderLine?
    ensures forall o :: o in HeaderOptions(hs) ==> o.HeaderLine?
    decreases |hs|
  {
    if |hs| > 0 {
      HeaderOptionsKind(hs[1..]);
      var first: seq<Opt> := if AllowedHeader(hs[0]) then HeaderValueOptions(hs[0].name, hs[0].values) else [];
      var rest := HeaderOptions(hs[1..]);
      forall i | 0 <= i < |first + rest|
        ensures (first + rest)[i].HeaderLine?
      {
        if i >= |first| {
          assert (first + rest)[i] == rest[i - |first|];
        }
      }
    }
  }

  lemma {:induction false} FieldOptionsKind(parameters: Params)
    ensures forall i :: 0 <= i < |FieldOptions(parameters)| ==> FieldOptions(parameters)[i].Form?
    decreases |parameters|
  {
    if |parameters| > 0 {
      FieldOptionsKind(parameters[1..]);
      var p := parameters[0];
      var first: seq<Opt> := seq(|p.1|, j requires 0 <= j < |p.1| => Form(p.0, p.1[j]));
      var rest := FieldOptions(parameters[1..]);
      forall i | 0 <= i < |first + rest|
        ensures (first + rest)[i].Form?
      {
        if i >= |first| {
          assert (first + rest)[i] == rest[i - |first|];
        }
      }
    }
  }

  /** The body options are a single `-d`, or `-F` fields only. */
  lemma ContentOptionsShape(req: Request, env: Collaborators)
    ensures var c := ContentOptions(req, env);
      (|c| == 1 && c[0].Data?) || forall i :: 0 <= i < |c| ==> c[i].Form?
    ensures var c := ContentOptions(req, env);
      (|c| == 1 && c[0].Data?) || forall o :: o in c ==> o.Form?
  {
    FieldOptionsKind(req.parameters);
  }

  /** Blocks whose ranks do not overlap may follow each other. */
  lemma SeparatedByRank(a: seq<Opt>, b: seq<Opt>, k: nat)
    requires forall o :: o in a ==> Rank(o) <= k
    requires forall o :: o in b ==> Rank(o) > k || (Rank(o) == k && (o.HeaderLine? || o.Form?))
    ensures Separated(a, b)
  {
    forall i, j | 0 <= i < |a| && 0 <= j < |b|
      ensures MayPrecede(a[i], b[j])
    {
      assert a[i] in a && b[j] in b;
    }
  }

  /** A block of options of one repeating kind is ordered. */
  lemma OrderedRepeating(os: seq<Opt>)
    requires (forall o :: o in os ==> o.HeaderLine?) || (forall o :: o in os ==> o.Form?)
    ensures Ordered(os)
  {
    forall i, j | 0 <= i < j < |os|
      ensures MayPrecede(os[i], os[j])
    {
      assert os[i] in os && os[j] in os;
    }
  }

  /** The option list opens with `-i`, which occurs nowhere else, and continues with
      the user, the method, the headers, the parts and the body in that order; only
      headers and form fields can occur more than once. */
  lemma OptionOrder(req: Request, env: Collaborators)
    requires OptionList(req, env).Ok?
    ensures var os := OptionList(req, env).value;
      && |os| > 0 && os[0] == IncludeHeaders
      && (forall i :: 0 < i < |os| ==> !os[i].IncludeHeaders?)
      && Ordered(os)
  {
    var user := UserOptions(req.headers, env.decodeBase64).value;
    HeaderOptionsKind(req.headers);
    ContentOptionsShape(req, env);
    assert forall o :: o in PartOptions(req.parts) ==> o.Form?;
    BlocksOrdered(user, MethodOptions(req.httpMethod), HeaderOptions(req.headers),
                  PartOptions(req.parts), ContentOptions(req, env));
  }

  /** The option list's shape from the kinds of its five blocks. */
  lemma BlocksOrdered(user: seq<Opt>, m: seq<Opt>, h: seq<Opt>, p: seq<Opt>, c: seq<Opt>)
    requires user == [] || (|user| == 1 && user[0].User?)
    requires m == [] || (|m| == 1 && m[0].Method?)
    requires forall o :: o in h ==> o.HeaderLine?
    requires forall o :: o in p ==> o.Form?
    requires c == [] || (|c| == 1 && c[0].Data?) || forall o :: o in c ==> o.Form?
    ensures var os := [IncludeHeaders] + user + m + h + p + c;
      && |os| > 0 && os[0] == IncludeHeaders
      && (forall i :: 0 < i < |os| ==> !os[i].IncludeHeaders?)
      && Ordered(os)
  {
    var s1 := [IncludeHeaders] + user;
    var s2 := s1 + m;
    var s3 := s2 + h;
    var s4 := s3 + p;
    var os := s4 + c;
    assert Ordered(s2) by {
      assert Ordered(s1);
      SeparatedByRank(s1, m, 1);
      OrderedConcat(s1, m);
    }
    assert Ordered(s3) by {
      OrderedRepeating(h);
      SeparatedByRank(s2, h, 2);
      OrderedConcat(s2, h);
    }
    assert Ordered(s4) by {
      OrderedRepeating(p);
      SeparatedByRank(s3, p, 3);
      OrderedConcat(s3, p);
    }
    assert Ordered(os) by {
      if !(|c| == 1 && c[0].Data?) {
        OrderedRepeating(c);
      }
      SeparatedByRank(s4, c, 4);
      OrderedConcat(s4, c);
    }
    assert os[0] == IncludeHeaders;
    forall i | 0 < i < |os|
      ensures !os[i].IncludeHeaders?
    {
      assert MayPrecede(os[0], os[i]);
    }
  }

  // ----- Rendering -----

  /** A writer's fragment: empty, or opened by a single space and an option's dash. */
  predicate Spaced(fragment: string) {
    fragment == "" || (|fragment| > 1 && fragment[0] == ' ' && fragment[1] == '-')
  }

  /** The printed options are `-i` followed by the fragments of the user, method,
      header, part and body writers, in that order, each empty or opened by a
      single space and a dash. */
  lemma OptionsFragments(req: Request, env: Collaborators)
    requires Options(req, env).Ok?
    ensures var user := RenderAll(UserOptions(req.headers, env.decodeBase64).value);
      var m := RenderAll(MethodOptions(req.httpMethod));
      var h := RenderAll(HeaderOptions(req.headers));
      var p := RenderAll(PartOptions(req.parts));
      var c := RenderAll(ContentOptions(req, env));
      && Options(req, env).value == "-i" + user + m + h + p + c
      && Spaced(user) && Spaced(m) && Spaced(h) && Spaced(p) && Spaced(c)
  {
    var user := UserOptions(req.headers, env.decodeBase64).value;
    HeaderOptionsKind(req.headers);
    ContentOptionsShape(req, env);
    BlocksRendered(user, MethodOptions(req.httpMethod), HeaderOptions(req.headers),
                   PartOptions(req.parts), ContentOptions(req, env));
  }

  /** Rendering the option list block by block. */
  lemma BlocksRendered(user: seq<Opt>, m: seq<Opt>, h: seq<Opt>, p: seq<Opt>, c: seq<Opt>)
    requires forall i :: 0 <= i < |user| ==> !user[i].IncludeHeaders?
    requires forall i :: 0 <= i < |m| ==> !m[i].IncludeHeaders?
    requires forall i :: 0 <= i < |h| ==> !h[i].IncludeHeaders?
    requires forall i :: 0 <= i < |p| ==> !p[i].IncludeHeaders?
    requires forall i :: 0 <= i < |c| ==> !c[i].IncludeHeaders?
    ensures RenderAll([IncludeHeaders] + user + m + h + p + c)
         == "-i" + RenderAll(user) + RenderAll(m) + RenderAll(h) + RenderAll(p) + RenderAll(c)
    ensures Spaced(RenderAll(user)) && Spaced(RenderAll(m)) && Spaced(RenderAll(h))
    ensures Spaced(RenderAll(p)) && Spaced(RenderAll(c))
  {
    var s1 := [IncludeHeaders] + user;
    var s2 := s1 + m;
    var s3 := s2 + h;
    var s4 := s3 + p;
    assert RenderAll(s1) == "-i" + RenderAll(user) by {
      RenderAllAppend([IncludeHeaders], user);
      assert RenderAll([IncludeHeaders]) == "-i";
    }
    assert RenderAll(s2) == RenderAll(s1) + RenderAll(m) by {
      RenderAllAppend(s1, m);
    }
    assert RenderAll(s3) == RenderAll(s2) + RenderAll(h) by {
      RenderAllAppend(s2, h);
    }
    assert RenderAll(s4) == RenderAll(s3) + RenderAll(p) by {
      RenderAllAppend(s3, p);
    }
    assert RenderAll(s4 + c) == RenderAll(s4) + RenderAll(c) by {
      RenderAllAppend(s4, c);
    }
    RenderAllSpaced(user);
    RenderAllSpaced(m);
    RenderAllSpaced(h);
    RenderAllSpaced(p);
    RenderAllSpaced(c);
  }

  /** Nothing is escaped: a header value holding a quote prints exactly as two
      separate headers do. */
  lemma RenderingIsAmbiguous()
    ensures RenderAll([HeaderLine("X", "a' -H 'Y: b")])
         == RenderAll([HeaderLine("X", "a"), HeaderLine("Y", "b")])
  {
  }

  // ----- Headers -----

  /** The headers of a list are those of its first part followed by those of the
      rest: entry order is kept. */
  lemma {:induction false} HeaderOptionsAppend(a: Headers, b: Headers)
    ensures HeaderOptions(a + b) == HeaderOptions(a) + HeaderOptions(b)
    decreases |a|
  {
    if |a| == 0 {
      assert a + b == b;
    } else {
      var first: seq<Opt> := if AllowedHeader(a[0]) then HeaderValueOptions(a[0].name, a[0].values) else [];
      assert HeaderOptions(a + b) == first + HeaderOptions(a[1..] + b) by {
        assert (a + b)[0] == a[0];
        assert (a + b)[1..] == a[1..] + b;
      }
      HeaderOptionsAppend(a[1..], b);
      ConcatAssoc(first, HeaderOptions(a[1..]), HeaderOptions(b));
    }
  }

  /** A single entry yields one `-H` per value when it is allowed, nothing otherwise. */
  lemma HeaderOptionsSingle(h: Header)
    ensures AllowedHeader(h) ==> HeaderOptions([h]) == HeaderValueOptions(h.name, h.values)
    ensures !AllowedHeader(h) ==> HeaderOptions([h]) == []
  {
    assert [h][1..] == [];
  }

  /** `-H 'name: value'` is emitted exactly for the values of allowed entries. */
  lemma {:induction false} HeaderOptionsMembership(hs: Headers, name: string, value: string)
    ensures HeaderLine(name, value) in HeaderOptions(hs) <==>
      exists i :: 0 <= i < |hs| && AllowedHeader(hs[i]) && hs[i].name == name && value in hs[i].values
    decreases |hs|
  {
    if |hs| > 0 {
      HeaderOptionsMembership(hs[1..], name, value);
      var first: seq<Opt> := if AllowedHeader(hs[0]) then HeaderValueOptions(hs[0].name, hs[0].values) else [];
      assert HeaderOptions(hs) == first + HeaderOptions(hs[1..]);
      assert HeaderLine(name, value) in first <==> AllowedHeader(hs[0]) && hs[0].name == name && value in hs[0].values by {
        if AllowedHeader(hs[0]) && hs[0].name == name && value in hs[0].values {
          var j :| 0 <= j < |hs[0].values| && hs[0].values[j] == value;
          assert first[j] == HeaderLine(name, value);
        }
      }
      assert forall i :: 1 <= i < |hs| ==> hs[i] == hs[1..][i - 1];
      if exists i :: 0 <= i < |hs| && AllowedHeader(hs[i]) && hs[i].name == name && value in hs[i].values {
        var i :| 0 <= i < |hs| && AllowedHeader(hs[i]) && hs[i].name == name && value in hs[i].values;
        if i > 0 {
          assert hs[1..][i - 1] == hs[i];
        }
      }
    }
  }

  /** Host and Content-Length are never echoed, in whatever case they were sent. */
  lemma NeverEchoesHostOrContentLength(hs: Headers, name: string, value: string)
    requires HeaderLine(name, value) in HeaderOptions(hs)
    ensures !EqualsIgnoreCase(HOST, name) && !EqualsIgnoreCase(CONTENT_LENGTH, name)
  {
    HeaderOptionsMembership(hs, name, value);
    var i :| 0 <= i < |hs| && AllowedHeader(hs[i]) && hs[i].name == name && value in hs[i].values;
    AllowedHeaderIff(hs[i]);
  }

  // ----- Credentials and method -----

  /** Generation fails exactly when the `Authorization` header found through the map
      is a Basic credential that does not decode. */
  lemma OptionListFailsIff(req: Request, env: Collaborators)
    ensures var auth := GetHeader(req.headers, AUTHORIZATION);
      OptionList(req, env).Err? <==>
        IsBasicAuthHeader(auth) && env.decodeBase64(auth.value[0][|BASIC_PREFIX|..]).None?
  {
  }

  /** `-u` appears exactly when the `Authorization` header found through the map is a
      Basic credential, and it carries that credential decoded (at most once, by
      `OptionOrder`). */
  lemma UserOptionIff(req: Request, env: Collaborators, credentials: string)
    requires OptionList(req, env).Ok?
    ensures var auth := GetHeader(req.headers, AUTHORIZATION);
      User(credentials) in OptionList(req, env).value <==>
        IsBasicAuthHeader(auth) && env.decodeBase64(auth.value[0][|BASIC_PREFIX|..]) == Some(credentials)
  {
    HeaderOptionsKind(req.headers);
    ContentOptionsShape(req, env);
    assert forall o :: o in PartOptions(req.parts) ==> o.Form?;
  }

  /** `-X` appears exactly when the method is not GET, and carries the method's name. */
  lemma MethodOptionIff(req: Request, env: Collaborators, token: string)
    requires OptionList(req, env).Ok?
    ensures Method(token) in OptionList(req, env).value <==>
      req.httpMethod != GET && token == MethodName(req.httpMethod)
  {
    HeaderOptionsKind(req.headers);
    ContentOptionsShape(req, env);
    assert forall o :: o in PartOptions(req.parts) ==> o.Form?;
  }

  /** Header lines in the option list are exactly those of the header writer. */
  lemma HeaderLinesFromHeaders(req: Request, env: Collaborators)
    requires OptionList(req, env).Ok?
    ensures forall name, value :: HeaderLine(name, value) in OptionList(req, env).value <==>
      HeaderLine(name, value) in HeaderOptions(req.headers)
  {
    var user := UserOptions(req.headers, env.decodeBase64).value;
    var c := ContentOptions(req, env);
    ContentOptionsShape(req, env);
    assert forall o :: o in PartOptions(req.parts) ==> o.Form?;
    forall name, value
      ensures HeaderLine(name, value) in OptionList(req, env).value <==>
        HeaderLine(name, value) in HeaderOptions(req.headers)
    {
      BlockHeaderLines(user, MethodOptions(req.httpMethod), HeaderOptions(req.headers),
                       PartOptions(req.parts), c, HeaderLine(name, value));
    }
  }

  /** Only the header block of an option list holds header lines. */
  lemma BlockHeaderLines(user: seq<Opt>, m: seq<Opt>, h: seq<Opt>, p: seq<Opt>, c: seq<Opt>, x: Opt)
    requires user == [] || (|user| == 1 && user[0].User?)
    requires m == [] || (|m| == 1 && m[0].Method?)
    requires forall o :: o in p ==> o.Form?
    requires c == [] || (|c| == 1 && c[0].Data?) || forall o :: o in c ==> o.Form?
    requires x.HeaderLine?
    ensures x in [IncludeHeaders] + user + m + h + p + c <==> x in h
  {
    if |c| == 1 && c[0].Data? {
      assert x !in c;
    }
  }

  /** Under the exact name "Authorization", a Basic credential moves to `-u` and is
      not echoed as a header. */
  lemma BasicCredentialBecomesUser(req: Request, env: Collaborators, i: nat)
    requires WellFormed(req.headers)
    requires i < |req.headers| && req.headers[i].name == AUTHORIZATION
    requires IsBasicAuthHeader(Some(req.headers[i].values))
    requires env.decodeBase64(req.headers[i].values[0][|BASIC_PREFIX|..]).Some?
    ensures OptionList(req, env).Ok?
    ensures User(env.decodeBase64(req.headers[i].values[0][|BASIC_PREFIX|..]).value) in OptionList(req, env).value
    ensures forall v :: HeaderLine(AUTHORIZATION, v) !in HeaderOptions(req.headers)
    ensures forall v :: HeaderLine(AUTHORIZATION, v) !in OptionList(req, env).value
  {
    var hs := req.headers;
    AuthorizationFound(hs, i);
    AllowedHeaderIff(hs[i]);
    forall v
      ensures HeaderLine(AUTHORIZATION, v) !in HeaderOptions(hs)
    {
      HeaderOptionsMembership(hs, AUTHORIZATION, v);
      forall j | 0 <= j < |hs| && hs[j].name == AUTHORIZATION
        ensures j == i
      {
        SameNameSameEntry(hs, i, j, AUTHORIZATION);
      }
    }
    assert OptionList(req, env).value[1] == User(env.decodeBase64(hs[i].values[0][|BASIC_PREFIX|..]).value);
    HeaderLinesFromHeaders(req, env);
  }

  /** Any other `Authorization` value under the exact name is echoed as headers and
      produces no `-u`. */
  lemma OtherAuthorizationEchoed(req: Request, env: Collaborators, i: nat)
    requires WellFormed(req.headers)
    requires i < |req.headers| && req.headers[i].name == AUTHORIZATION
    requires !IsBasicAuthHeader(Some(req.headers[i].values))
    ensures OptionList(req, env).Ok?
    ensures forall credentials :: User(credentials) !in OptionList(req, env).value
    ensures forall v :: v in req.headers[i].values ==> HeaderLine(AUTHORIZATION, v) in OptionList(req, env).value
  {
    var hs := req.headers;
    AuthorizationFound(hs, i);
    AllowedHeaderIff(hs[i]);
    forall credentials
      ensures User(credentials) !in OptionList(req, env).value
    {
      UserOptionIff(req, env, credentials);
    }
    forall v | v in hs[i].values
      ensures HeaderLine(AUTHORIZATION, v) in HeaderOptions(hs)
    {
      HeaderOptionsMembership(hs, AUTHORIZATION, v);
    }
    HeaderLinesFromHeaders(req, env);
  }

  /** In well-formed headers, two entries matching one name ignoring case are the
      same entry. */
  lemma SameNameSameEntry(hs: Headers, i: nat, j: nat, name: string)
    requires WellFormed(hs)
    requires i < |hs| && j < |hs|
    requires EqualsIgnoreCase(hs[i].name, name) && EqualsIgnoreCase(hs[j].name, name)
    ensures i == j
  {
  }

  /** In well-formed headers, the entry spelled exactly "Authorization" is the one the
      map lookup finds. */
  lemma AuthorizationFound(hs: Headers, i: nat)
    requires WellFormed(hs)
    requires i < |hs| && hs[i].name == AUTHORIZATION
    ensures GetHeader(hs, AUTHORIZATION) == Some(hs[i].values)
  {
    var r := GetHeader(hs, AUTHORIZATION);
    assert EqualsIgnoreCase(hs[i].name, AUTHORIZATION);
    var j :| 0 <= j < |hs| && EqualsIgnoreCase(hs[j].name, AUTHORIZATION) && hs[j].values == r.value;
    SameNameSameEntry(hs, i, j, AUTHORIZATION);
  }

  /** The map lookup ignores case but the filter does not: a Basic credential under
      the name "authorization" yields both `-u` and the `-H` it came from. */
  lemma LowerCaseAuthorizationEchoed(env: Collaborators)
    requires env.decodeBase64("dXNlcjpzZWNyZXQ=") == Some("user:secret")
    ensures var req := Request(GET, "http://localhost/", [Header("authorization", ["Basic dXNlcjpzZWNyZXQ="])], "", [], []);
      OptionList(req, env)
        == Ok([IncludeHeaders, User("user:secret"), HeaderLine("authorization", "Basic dXNlcjpzZWNyZXQ=")])
  {
    var hs := [Header("authorization", ["Basic dXNlcjpzZWNyZXQ="])];
    LowerCaseAuthorizationHeaders();
    LowerCaseAuthorizationUser(env);
    var req := Request(GET, "http://localhost/", hs, "", [], []);
    assert ContentOptions(req, env) == [];
    assert PartOptions([]) == [];
    assert MethodOptions(GET) == [];
    assert OptionList(req, env) == Ok([IncludeHeaders] + [User("user:secret")] + [] + HeaderOptions(hs) + [] + []);
    assert [IncludeHeaders] + [User("user:secret")] + [] + HeaderOptions(hs) + [] + []
        == [IncludeHeaders, User("user:secret"), HeaderLine("authorization", "Basic dXNlcjpzZWNyZXQ=")];
  }

  /** The filter compares names exactly, so the lowercase header is echoed. */
  lemma LowerCaseAuthorizationHeaders()
    ensures HeaderOptions([Header("authorization", ["Basic dXNlcjpzZWNyZXQ="])])
         == [HeaderLine("authorization", "Basic dXNlcjpzZWNyZXQ=")]
  {
    var h := Header("authorization", ["Basic dXNlcjpzZWNyZXQ="]);
    assert StartsWith("Basic dXNlcjpzZWNyZXQ=", BASIC_PREFIX);
    assert !EqualsIgnoreCase(HOST, "authorization");
    assert !EqualsIgnoreCase(CONTENT_LENGTH, "authorization");
    assert "authorization" != AUTHORIZATION by {
      assert "authorization"[0] != AUTHORIZATION[0];
    }
    AllowedHeaderIff(h);
    HeaderOptionsSingle(h);
  }

  /** The map lookup ignores case, so the lowercase header supplies the credential. */
  lemma LowerCaseAuthorizationUser(env: Collaborators)
    requires env.decodeBase64("dXNlcjpzZWNyZXQ=") == Some("user:secret")
    ensures UserOptions([Header("authorization", ["Basic dXNlcjpzZWNyZXQ="])], env.decodeBase64)
         == Ok([User("user:secret")])
  {
    var hs := [Header("authorization", ["Basic dXNlcjpzZWNyZXQ="])];
    assert EqualsIgnoreCase("authorization", AUTHORIZATION);
    assert GetHeader(hs, AUTHORIZATION) == Some(["Basic dXNlcjpzZWNyZXQ="]);
    assert StartsWith("Basic dXNlcjpzZWNyZXQ=", BASIC_PREFIX);
    assert "Basic dXNlcjpzZWNyZXQ="[6..] == "dXNlcjpzZWNyZXQ=";
  }

  // ----- Body -----

  /** `-F 'name=value'` is emitted for exactly the raw parameter values. */
  lemma {:induction false} FieldOptionsMembership(parameters: Params, name: string, value: string)
    ensures Form(name, value) in FieldOptions(parameters) <==>
      exists i :: 0 <= i < |parameters| && parameters[i].0 == name && value in parameters[i].1
    decreases |parameters|
  {
    if |parameters| > 0 {
      FieldOptionsMembership(parameters[1..], name, value);
      var p := parameters[0];
      var first: seq<Opt> := seq(|p.1|, j requires 0 <= j < |p.1| => Form(p.0, p.1[j]));
      assert FieldOptions(parameters) == first + FieldOptions(parameters[1..]);
      assert Form(name, value) in first <==> p.0 == name && value in p.1 by {
        if p.0 == name && value in p.1 {
          var j :| 0 <= j < |p.1| && p.1[j] == value;
          assert first[j] == Form(name, value);
        }
      }
      assert forall i :: 1 <= i < |parameters| ==> parameters[i] == parameters[1..][i - 1];
      if exists i :: 0 <= i < |parameters| && parameters[i].0 == name && value in parameters[i].1 {
        var i :| 0 <= i < |parameters| && parameters[i].0 == name && value in parameters[i].1;
        if i > 0 {
          assert parameters[1..][i - 1] == parameters[i];
        }
      }
    }
  }

  /** The field options of two parameter lists are those of each, in order. */
  lemma {:induction false} FieldOptionsAppend(a: Params, b: Params)
    ensures FieldOptions(a + b) == FieldOptions(a) + FieldOptions(b)
    decreases |a|
  {
    if |a| == 0 {
      assert a + b == b;
    } else {
      var p := a[0];
      var first: seq<Opt> := seq(|p.1|, j requires 0 <= j < |p.1| => Form(p.0, p.1[j]));
      assert FieldOptions(a + b) == first + FieldOptions(a[1..] + b) by {
        assert (a + b)[0] == p;
        assert (a + b)[1..] == a[1..] + b;
      }
      FieldOptionsAppend(a[1..], b);
      ConcatAssoc(first, FieldOptions(a[1..]), FieldOptions(b));
    }
  }

  /** One entry yields one `-F` per value, in the values' order, all under its key. */
  lemma FieldOptionsSingle(p: (string, seq<string>))
    ensures |FieldOptions([p])| == |p.1|
    ensures forall j :: 0 <= j < |p.1| ==> FieldOptions([p])[j] == Form(p.0, p.1[j])
  {
    assert [p][1..] == [];
  }

  /** The body options: body text wins over everything and is sent verbatim; a
      multipart request sends every raw parameter value as a field; a PUT or POST
      sends the reconciled parameters' query string when it has text; nothing else
      produces a body. */
  lemma ContentOptionsSpec(req: Request, env: Collaborators)
    ensures var c := ContentOptions(req, env);
      var queryString := env.toQueryString(Reconciler.GetUniqueParameters(req.parameters, env.parseQuery(req.uri)));
      && (HasText(req.content) ==> c == [Data(req.content)])
      && ((exists i :: 0 <= i < |c| && c[i].Data?) <==>
            HasText(req.content) || (|req.parts| == 0 && IsPutOrPost(req.httpMethod) && HasText(queryString)))
      && (forall i :: 0 <= i < |c| && c[i].Data? ==> c == [c[i]])
      && (forall i :: 0 <= i < |c| && c[i].Data? && !HasText(req.content) ==> c[i].payload == queryString)
      && ((exists i :: 0 <= i < |c| && c[i].Form?) ==> !HasText(req.content) && |req.parts| > 0)
      && (!HasText(req.content) && |req.parts| > 0 ==> c == FieldOptions(req.parameters))
      && (!HasText(req.content) && |req.parts| > 0 ==>
            forall name, value :: Form(name, value) in c <==>
              exists i :: 0 <= i < |req.parameters| && req.parameters[i].0 == name && value in req.parameters[i].1)
      && (!HasText(req.content) && |req.parts| == 0 && !IsPutOrPost(req.httpMethod) ==> c == [])
  {
    var c := ContentOptions(req, env);
    FieldOptionsKind(req.parameters);
    if HasText(req.content) {
      assert c[0].Data?;
    } else if |req.parts| > 0 {
      assert forall o :: o in FieldOptions(req.parameters) ==> o.Form?;
    } else if IsPutOrPost(req.httpMethod) {
      if c != [] {
        assert c[0].Data?;
      }
    }
    forall name, value
      ensures Form(name, value) in FieldOptions(req.parameters) <==>
        exists i :: 0 <= i < |req.parameters| && req.parameters[i].0 == name && value in req.parameters[i].1
    {
      FieldOptionsMembership(req.parameters, name, value);
    }
  }

  /** Reconciling `type: [a, b], qty: [5]` against the query `type=a`. */
  lemma PutExampleReconciled()
    ensures Reconciler.GetUniqueParameters([("type", ["a", "b"]), ("qty", ["5"])], [("type", ["a"])])
         == [("type", ["b"]), ("qty", ["5"])]
  {
    var query: Params := [("type", ["a"])];
    var parameters: Params := [("type", ["a", "b"]), ("qty", ["5"])];
    assert Reconciler.Reference(parameters, query) == [("type", ["b"]), ("qty", ["5"])] by {
      assert Reconciler.Survivor(parameters[0], query) == [("type", ["b"])] by {
        assert Get(query, "type") == Some(["a"]);
        assert Reconciler.Novel(["a", "b"], ["a"]) == ["b"];
      }
      assert Reconciler.Survivor(parameters[1], query) == [("qty", ["5"])] by {
        assert Get(query, "qty") == None;
      }
      assert parameters[1..][1..] == [];
    }
    Reconciler.UniqueParametersIsReference(parameters, query);
  }

  /** A PUT to `http://api.test/widgets?type=a` with parameters `type: [a, b]` and
      `qty: [5]`, no body and no parts, sends only `type=b` and `qty=5` as data. */
  lemma PutExampleOptionList(env: Collaborators)
    requires env.parseQuery("http://api.test/widgets?type=a") == [("type", ["a"])]
    requires HasText(env.toQueryString([("type", ["b"]), ("qty", ["5"])]))
    ensures var req := Request(PUT, "http://api.test/widgets?type=a", [], "", [], [("type", ["a", "b"]), ("qty", ["5"])]);
      OptionList(req, env)
        == Ok([IncludeHeaders, Method("PUT"), Data(env.toQueryString([("type", ["b"]), ("qty", ["5"])]))])
  {
    PutExampleReconciled();
    var parameters: Params := [("type", ["a", "b"]), ("qty", ["5"])];
    var req := Request(PUT, "http://api.test/widgets?type=a", [], "", [], parameters);
    var queryString := env.toQueryString([("type", ["b"]), ("qty", ["5"])]);
    assert Reconciler.GetUniqueParameters(req.parameters, env.parseQuery(req.uri)) == [("type", ["b"]), ("qty", ["5"])];
    assert ReconciledData(req, env) == [Data(queryString)];
    assert !HasText(req.content);
    assert ContentOptions(req, env) == [Data(queryString)];
    assert UserOptions([], env.decodeBase64) == Ok([]);
    assert HeaderOptions([]) == [];
    assert PartOptions([]) == [];
    assert MethodOptions(PUT) == [Method("PUT")];
    assert [IncludeHeaders] + [] + [Method("PUT")] + [] + [] + [Data(queryString)]
        == [IncludeHeaders, Method("PUT"), Data(queryString)];
  }

  lemma RenderPutDataSteps(payload: string)
    ensures RenderAll([IncludeHeaders, Method("PUT"), Data(payload)]) == "-i" + (" -X PUT" + (" -d '" + payload + "'"))
  {
    var os := [IncludeHeaders, Method("PUT"), Data(payload)];
    assert os[1..] == [Method("PUT"), Data(payload)];
    assert os[1..][1..] == [Data(payload)];
    assert [Data(payload)][1..] == [];
    assert RenderAll([Data(payload)]) == " -d '" + payload + "'" + "";
    assert RenderAll(os[1..]) == " -X PUT" + RenderAll([Data(payload)]);
  }

  lemma RenderPutData(payload: string)
    ensures RenderAll([IncludeHeaders, Method("PUT"), Data(payload)]) == "-i -X PUT -d '" + payload + "'"
  {
    RenderPutDataSteps(payload);
    assert "-i" + " -X PUT" + " -d '" == "-i -X PUT -d '";
  }

  /** The same request printed: `-i -X PUT -d '<encoded type=b, qty=5>'`. */
  lemma PutExample(env: Collaborators)
    requires env.parseQuery("http://api.test/widgets?type=a") == [("type", ["a"])]
    requires HasText(env.toQueryString([("type", ["b"]), ("qty", ["5"])]))
    ensures var req := Request(PUT, "http://api.test/widgets?type=a", [], "", [], [("type", ["a", "b"]), ("qty", ["5"])]);
      Options(req, env) == Ok("-i -X PUT -d '" + env.toQueryString([("type", ["b"]), ("qty", ["5"])]) + "'")
  {
    PutExampleOptionList(env);
    var req := Request(PUT, "http://api.test/widgets?type=a", [], "", [], [("type", ["a", "b"]), ("qty", ["5"])]);
    var queryString := env.toQueryString([("type", ["b"]), ("qty", ["5"])]);
    RenderPutData(queryString);
    assert Options(req, env).value == RenderAll([IncludeHeaders, Method("PUT"), Data(queryString)]);
  }
}
