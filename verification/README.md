# Spring REST Docs: the curl request snippet and the snippet writer resolver

This project models two pieces of Spring REST Docs in Dafny and proves what they
promise.

- **`CurlRequestSnippet`** documents a captured HTTP request as a curl command.
  It produces two strings:
  - the URL, single-quoted;
  - the option string. It opens with `-i`, then an optional `-u` carrying a
    decoded Basic credential, an optional `-X METHOD`, the request headers that
    pass three filters (`-H`), one `-F` per multipart part, and at most one
    body branch, chosen first-match.
  The body branch for a PUT or POST without body text or parts uses a parameter
  reconciler. It drops form-parameter values the URI's query string already
  carries.
- **`StandardWriterResolver`** decides where a snippet is written.
  - The file is the operation name joined with `snippetName + ".adoc"`.
  - A relative file is re-rooted under the configured output directory.
  - A relative file with no directory configured goes to standard output. An
    absolute file is written where it is, configured directory or not.
  - The parent directory is created when needed. Generation fails when that is
    impossible.

Modules, one per file:
- `Wrappers` (wrappers.dfy): `Option` and `Result`.
- `Seqs` (seqs.dfy): associativity of concatenation.
- `Text` (text.dfy): `hasText` over Java's `Character.isWhitespace`,
  `startsWith` and `endsWith`, and ASCII `equalsIgnoreCase`.
- `Parameters` (parameters.dfy): the ordered multimap behind `Parameters`
  (`LinkedMultiValueMap`), with its `get`, `put` and `add`.
- `HeaderFilters` (header_filters.dfy): header entries, the case-insensitive
  header lookup, the two filter kinds, and Basic-credential detection and decoding.
- `Reconciler` (reconciler.dfy): `getUniqueParameters`/`addIfUnique` as
  written, a key-by-key reference definition, and the proof that the two agree.
- `CurlRequest` (curl_request.dfy): the request, the options as a token list,
  rendering with the snippet's format strings, and one function per `write*`
  helper.
- `CurlRequestProperties` (curl_properties.dfy): order, echo, credential, method
  and body properties of the option list, plus worked examples.
- `Paths` (paths.dfy): the Unix rules of `java.io.File` that `resolveFile`
  depends on: normalisation, `new File(parent, child)`, `isAbsolute` and
  `getParent`.
- `WriterResolver` (writer_resolver.dfy): `resolveFile`,
  `makeRelativeToConfiguredOutputDir`, `createDirectoriesIfNecessary`,
  `resolve` and the encoding.

Code the snippet calls but does not contain is a parameter of the model:
- `Base64Utils.decodeFromString` followed by `new String(...)` is
  `Collaborators.decodeBase64`. It returns `None` for malformed input, which
  makes generation fail with `MalformedCredential`.
- `QueryStringParser.parse` is `Collaborators.parseQuery`.
- `Parameters.toQueryString` is `Collaborators.toQueryString`.
- The file system's `isDirectory` and `mkdirs` are the `FileSystem` predicates.

Reconciliation keeps the request's key order. For parameters
`type: [a, b], qty: [5]` against the query `type=a` the reconciled map is
`type: [b], qty: [5]`, with `type` first (`CurlRequestProperties.PutExampleReconciled`).
The text of the query string is left to the abstract `toQueryString`.

## Model

| member | source | states |
|---|---|---|
| Text.HasText | spring-restdocs-core/src/main/java/org/springframework/restdocs/curl/CurlRequestSnippet.java:161 | `hasText` holds exactly when some character is not Java whitespace, so an empty or all-whitespace text counts as absent |
| HeaderFilters.GetHeader | spring-restdocs-core/src/main/java/org/springframework/restdocs/curl/CurlRequestSnippet.java:108 | the header lookup ignores case: `None` exactly when no entry's name matches ignoring case, otherwise the values of such an entry |
| HeaderFilters.DecodeBasicAuthHeader | spring-restdocs-core/src/main/java/org/springframework/restdocs/curl/CurlRequestSnippet.java:234-236 | decoding succeeds exactly when the first value after its 6-character prefix decodes; the result is that decoding; a failure names the undecodable text |
| HeaderFilters.AllowedBy | spring-restdocs-core/src/main/java/org/springframework/restdocs/curl/CurlRequestSnippet.java:132-139 | the filter loop allows a header exactly when every filter in the list allows it |
| HeaderFilters.FilterOrderIrrelevant | spring-restdocs-core/src/main/java/org/springframework/restdocs/curl/CurlRequestSnippet.java:50-58 | two filter lists holding the same filters, in any order, give the same verdict, so the hash-set order is irrelevant |
| HeaderFilters.AllowedHeaderIff | spring-restdocs-core/src/main/java/org/springframework/restdocs/curl/CurlRequestSnippet.java:222-253 | a header is allowed exactly when its name is not Host and not Content-Length in any letter case, and it is not a Basic credential under the exact name Authorization |
| Parameters.Get | spring-restdocs-core/src/main/java/org/springframework/restdocs/curl/CurlRequestSnippet.java:198-203 | `get` gives `None` exactly when no entry has the key, and otherwise the values stored in the first entry under that key |
| Parameters.Put | spring-restdocs-core/src/main/java/org/springframework/restdocs/curl/CurlRequestSnippet.java:199 | `put` stores the values under the key and changes no other key; a new key is appended at the end; an existing key keeps its position |
| Parameters.Add | spring-restdocs-core/src/main/java/org/springframework/restdocs/curl/CurlRequestSnippet.java:206 | `add` appends the value to the key's list, creating an entry at the end for a new key, and changes no other key |
| Reconciler.Novel | spring-restdocs-core/src/main/java/org/springframework/restdocs/curl/CurlRequestSnippet.java:204-208 | the kept candidates are those not in the query's list, in their original order (a subsequence of the candidates), each kept value as often as it occurs among the candidates |
| Reconciler.AddEachFresh | spring-restdocs-core/src/main/java/org/springframework/restdocs/curl/CurlRequestSnippet.java:202-208 | the inner loop appends exactly the novel candidates, in order, under a key not yet in the result, and adds no entry when none is novel |
| Reconciler.AddIfUniqueFresh | spring-restdocs-core/src/main/java/org/springframework/restdocs/curl/CurlRequestSnippet.java:196-210 | one `addIfUnique` call appends that parameter's survivor: the whole list for a key missing from the query, the novel values otherwise, nothing when none are novel |
| Reconciler.AddAllIsReference | spring-restdocs-core/src/main/java/org/springframework/restdocs/curl/CurlRequestSnippet.java:190-192 | the loop over the request's parameters appends their survivors in request order |
| Reconciler.UniqueParametersIsReference | spring-restdocs-core/src/main/java/org/springframework/restdocs/curl/CurlRequestSnippet.java:185-194 | `getUniqueParameters` equals the key-by-key reference definition |
| Reconciler.ReferenceLookup | spring-restdocs-core/src/main/java/org/springframework/restdocs/curl/CurlRequestSnippet.java:185-210 | in the reference result, a key maps to its kept values when it is a request parameter, and is absent otherwise |
| Reconciler.ReferenceKeys | spring-restdocs-core/src/main/java/org/springframework/restdocs/curl/CurlRequestSnippet.java:185-194 | the reference result's keys are distinct and keep the request's key order |
| Reconciler.UniqueParametersSpec | spring-restdocs-core/src/main/java/org/springframework/restdocs/curl/CurlRequestSnippet.java:185-210 | reconciliation keeps key order and distinct keys. A key missing from the query keeps all its values. A key in the query keeps exactly its values the query lacks, in order, and is dropped when none remain. No other key appears |
| Reconciler.ReconcileExample | spring-restdocs-core/src/main/java/org/springframework/restdocs/curl/CurlRequestSnippet.java:185-210 | the query `a=1&b=2` against the parameters `a: [1, 3], c: [4]` leaves `a: [3], c: [4]` |
| CurlRequest.Render | spring-restdocs-core/src/main/java/org/springframework/restdocs/curl/CurlRequestSnippet.java:102-183 | the `-i` option prints as `-i`; every other option's text opens with a space and a dash |
| CurlRequest.UrlRoundTrip | spring-restdocs-core/src/main/java/org/springframework/restdocs/curl/CurlRequestSnippet.java:85-87 | the URL is the URI between single quotes, two characters longer; removing the outer quotes gives back the URI, whatever quotes it contains |
| CurlRequest.UserOptions | spring-restdocs-core/src/main/java/org/springframework/restdocs/curl/CurlRequestSnippet.java:106-113 | no `-u` unless the Authorization lookup finds a Basic value. Then generation fails exactly when the first value after its prefix does not decode, and otherwise emits one `-u` with the decoded credential |
| CurlRequest.MethodOptions | spring-restdocs-core/src/main/java/org/springframework/restdocs/curl/CurlRequestSnippet.java:115-120 | no `-X` exactly for GET; otherwise one `-X` carrying the method's name |
| CurlRequest.HeaderValueOptions | spring-restdocs-core/src/main/java/org/springframework/restdocs/curl/CurlRequestSnippet.java:125-127 | an allowed entry yields one `-H` per value, with the entry's name, in value order |
| CurlRequest.PartValue | spring-restdocs-core/src/main/java/org/springframework/restdocs/curl/CurlRequestSnippet.java:143-155 | the part's value starts with `@` and the file name when that name has text, and otherwise with the part's content. It ends with `;type=` and the content type when there is one. Its length is exactly those pieces' lengths |
| CurlRequest.PartOptions | spring-restdocs-core/src/main/java/org/springframework/restdocs/curl/CurlRequestSnippet.java:141-157 | one `-F` per part, in request order, each the part's name and its value |
| CurlRequest.Options | spring-restdocs-core/src/main/java/org/springframework/restdocs/curl/CurlRequestSnippet.java:89-100 | the option string fails exactly when the option list does, and otherwise begins with `-i` |
| CurlRequestProperties.BlocksOrdered | spring-restdocs-core/src/main/java/org/springframework/restdocs/curl/CurlRequestSnippet.java:89-100 | joining `-i` with a user block, a method block, header lines, part fields and a body block gives an ordered list that opens with `-i` and holds no other `-i` |
| CurlRequestProperties.OptionOrder | spring-restdocs-core/src/main/java/org/springframework/restdocs/curl/CurlRequestSnippet.java:89-100 | the option list opens with `-i`, which occurs nowhere else. Then come user, method, headers, parts and body, in that order. Only headers and form fields repeat |
| CurlRequestProperties.OptionsFragments | spring-restdocs-core/src/main/java/org/springframework/restdocs/curl/CurlRequestSnippet.java:89-104 | the printed options are `-i` followed by the user, method, header, part and body fragments in that order, each empty or opened by a single space and a dash |
| CurlRequestProperties.RenderingIsAmbiguous | spring-restdocs-core/src/main/java/org/springframework/restdocs/curl/CurlRequestSnippet.java:126 | nothing is escaped: a header value holding a quote prints exactly like two separate headers |
| CurlRequestProperties.HeaderOptionsAppend | spring-restdocs-core/src/main/java/org/springframework/restdocs/curl/CurlRequestSnippet.java:122-130 | the header options of two header lists are those of the first followed by those of the second, so entry order is kept |
| CurlRequestProperties.HeaderOptionsSingle | spring-restdocs-core/src/main/java/org/springframework/restdocs/curl/CurlRequestSnippet.java:122-130 | a single entry yields one `-H` per value when it is allowed, and nothing otherwise |
| CurlRequestProperties.HeaderOptionsMembership | spring-restdocs-core/src/main/java/org/springframework/restdocs/curl/CurlRequestSnippet.java:122-139 | `-H 'name: value'` is emitted exactly when some allowed entry has that name and that value |
| CurlRequestProperties.NeverEchoesHostOrContentLength | spring-restdocs-core/src/main/java/org/springframework/restdocs/curl/CurlRequestSnippet.java:122-139 | no emitted `-H` names Host or Content-Length, in any letter case |
| CurlRequestProperties.OptionListFailsIff | spring-restdocs-core/src/main/java/org/springframework/restdocs/curl/CurlRequestSnippet.java:106-113 | generation fails exactly when the Authorization lookup finds a Basic value whose encoded part does not decode |
| CurlRequestProperties.UserOptionIff | spring-restdocs-core/src/main/java/org/springframework/restdocs/curl/CurlRequestSnippet.java:106-113 | `-u 'c'` is in the options exactly when the Authorization lookup finds a Basic value whose encoded part decodes to `c` |
| CurlRequestProperties.MethodOptionIff | spring-restdocs-core/src/main/java/org/springframework/restdocs/curl/CurlRequestSnippet.java:115-120 | `-X t` is in the options exactly when the method is not GET and `t` is its name |
| CurlRequestProperties.AuthorizationFound | spring-restdocs-core/src/main/java/org/springframework/restdocs/curl/CurlRequestSnippet.java:108 | when the headers hold an entry spelled exactly Authorization, the lookup finds that entry's values |
| CurlRequestProperties.BlockHeaderLines | spring-restdocs-core/src/main/java/org/springframework/restdocs/curl/CurlRequestSnippet.java:89-100 | in `-i` joined with a user block, a method block, the header block, part fields and a body block, a header line occurs exactly when it occurs in the header block |
| CurlRequestProperties.HeaderLinesFromHeaders | spring-restdocs-core/src/main/java/org/springframework/restdocs/curl/CurlRequestSnippet.java:89-100 | the option list holds a given `-H` exactly when the header writer emits it: no other writer produces header lines |
| CurlRequestProperties.BasicCredentialBecomesUser | spring-restdocs-core/src/main/java/org/springframework/restdocs/curl/CurlRequestSnippet.java:106-139 | a Basic value under the exact name Authorization becomes a `-u` with the decoded credential, and no `-H` named Authorization appears anywhere in the option list |
| CurlRequestProperties.OtherAuthorizationEchoed | spring-restdocs-core/src/main/java/org/springframework/restdocs/curl/CurlRequestSnippet.java:106-139 | any other value under the exact name Authorization produces no `-u`, and every one of its values is echoed as `-H` |
| CurlRequestProperties.LowerCaseAuthorizationEchoed | spring-restdocs-core/src/main/java/org/springframework/restdocs/curl/CurlRequestSnippet.java:106-130 | a Basic credential under the name `authorization` yields both the `-u` (the lookup ignores case) and the `-H` (the filter does not) |
| CurlRequestProperties.FieldOptionsMembership | spring-restdocs-core/src/main/java/org/springframework/restdocs/curl/CurlRequestSnippet.java:164-169 | `-F 'k=v'` is emitted for exactly the raw parameter values |
| CurlRequestProperties.FieldOptionsAppend | spring-restdocs-core/src/main/java/org/springframework/restdocs/curl/CurlRequestSnippet.java:164-169 | the `-F` fields of two parameter lists are those of the first followed by those of the second, so entry order is kept |
| CurlRequestProperties.FieldOptionsSingle | spring-restdocs-core/src/main/java/org/springframework/restdocs/curl/CurlRequestSnippet.java:164-169 | one entry yields exactly one `-F` per value, in value order, each carrying the entry's key and that value |
| CurlRequestProperties.ContentOptionsSpec | spring-restdocs-core/src/main/java/org/springframework/restdocs/curl/CurlRequestSnippet.java:159-183 | body text wins and is sent verbatim as the only `-d`. Otherwise a multipart request's body is exactly the field options of the raw parameters: one `-F` per value, entries in order and values in order within an entry. Otherwise a PUT or POST sends the reconciled query string as `-d` when it has text. Nothing else sends a body |
| CurlRequestProperties.PutExampleReconciled | spring-restdocs-core/src/main/java/org/springframework/restdocs/curl/CurlRequestSnippet.java:185-210 | `type: [a, b], qty: [5]` against the query `type=a` leaves `type: [b], qty: [5]` |
| CurlRequestProperties.PutExampleOptionList | spring-restdocs-core/src/main/java/org/springframework/restdocs/curl/CurlRequestSnippet.java:89-183 | that PUT, with no body and no parts, yields the options `-i`, `-X PUT` and one `-d` with the reconciled query string |
| CurlRequestProperties.PutExample | spring-restdocs-core/src/main/java/org/springframework/restdocs/curl/CurlRequestSnippet.java:89-183 | that PUT prints `-i -X PUT -d '<query string>'` |
| Paths.NormalizeSpec | spring-restdocs-core/src/main/java/org/springframework/restdocs/snippet/StandardWriterResolver.java:77 | path normalisation gives the normal form (no doubled separator, no trailing one), leaves a normal path alone, is idempotent, and keeps the path's names (its non-empty segments) and whether it is absolute |
| Paths.CollapseNames | spring-restdocs-core/src/main/java/org/springframework/restdocs/snippet/StandardWriterResolver.java:77 | reducing runs of separators to one keeps the names |
| Paths.TrailingSeparatorNames | spring-restdocs-core/src/main/java/org/springframework/restdocs/snippet/StandardWriterResolver.java:77 | a trailing separator adds no name |
| Paths.NormalizeNames | spring-restdocs-core/src/main/java/org/springframework/restdocs/snippet/StandardWriterResolver.java:77 | normalising keeps the names |
| Paths.NamesRebuild | spring-restdocs-core/src/main/java/org/springframework/restdocs/snippet/StandardWriterResolver.java:77 | text with no doubled and no trailing separator is given back by joining its names with single separators |
| Paths.NormalRebuilt | spring-restdocs-core/src/main/java/org/springframework/restdocs/snippet/StandardWriterResolver.java:77 | a normal path is its names joined by single separators, behind a leading separator exactly when it is absolute |
| Paths.NormalizeCharacterised | spring-restdocs-core/src/main/java/org/springframework/restdocs/snippet/StandardWriterResolver.java:77 | the normalised path is the only normal path that has the input's names and is absolute exactly when the input is |
| Paths.NormalizeExample | spring-restdocs-core/src/main/java/org/springframework/restdocs/snippet/StandardWriterResolver.java:77 | `ab//cd/` has the names `ab` and `cd` and normalises to `ab/cd` |
| Paths.ChildAbsolute | spring-restdocs-core/src/main/java/org/springframework/restdocs/snippet/StandardWriterResolver.java:77-78 | `new File(parent, child)` is absolute exactly when the parent is empty or absolute |
| Paths.ChildInsertsOneSeparator | spring-restdocs-core/src/main/java/org/springframework/restdocs/snippet/StandardWriterResolver.java:77 | joining a normal parent other than the root with a normal relative name inserts exactly one separator, and the result is normal |
| Paths.ChildShape | spring-restdocs-core/src/main/java/org/springframework/restdocs/snippet/StandardWriterResolver.java:94 | a file built from a name not ending in a separator contains a separator and ends with that name's last character |
| Paths.ParentExists | spring-restdocs-core/src/main/java/org/springframework/restdocs/snippet/StandardWriterResolver.java:94 | such a path always has a parent |
| WriterResolver.NewResolver | spring-restdocs-core/src/main/java/org/springframework/restdocs/snippet/StandardWriterResolver.java:36 | a new resolver writes UTF-8 |
| WriterResolver.SetEncoding | spring-restdocs-core/src/main/java/org/springframework/restdocs/snippet/StandardWriterResolver.java:70-73 | `setEncoding` takes the given name, unvalidated |
| WriterResolver.SetEncodingOverrides | spring-restdocs-core/src/main/java/org/springframework/restdocs/snippet/StandardWriterResolver.java:70-73 | the last encoding set wins |
| WriterResolver.ResolveFile | spring-restdocs-core/src/main/java/org/springframework/restdocs/snippet/StandardWriterResolver.java:75-82 | an absolute candidate is returned unchanged, whatever is configured. A relative one is re-rooted under the configured directory. The result is `None` exactly for a relative candidate with no directory configured |
| WriterResolver.MakeRelativeToConfiguredOutputDir | spring-restdocs-core/src/main/java/org/springframework/restdocs/snippet/StandardWriterResolver.java:84-91 | there is a result exactly when a directory is configured; it is `new File(directory, outputFile)`, and it is absolute exactly when that directory is empty or absolute |
| WriterResolver.CreateDirectoriesIfNecessary | spring-restdocs-core/src/main/java/org/springframework/restdocs/snippet/StandardWriterResolver.java:93-99 | for a file with a parent, creation fails exactly when the parent is not a directory and cannot be made |
| WriterResolver.ResolvedFileHasParent | spring-restdocs-core/src/main/java/org/springframework/restdocs/snippet/StandardWriterResolver.java:57-61 | every file `resolveFile` returns has a parent, so the `null` parent in `createDirectoriesIfNecessary` cannot occur |
| WriterResolver.StandardOutputIff | spring-restdocs-core/src/main/java/org/springframework/restdocs/snippet/StandardWriterResolver.java:54-68 | `resolve` writes to standard output exactly when the candidate is relative and no directory is configured; its answer then does not depend on the file system |
| WriterResolver.ResolveOutcome | spring-restdocs-core/src/main/java/org/springframework/restdocs/snippet/StandardWriterResolver.java:54-68 | with no resolved file `resolve` writes to standard output; for a resolved file, which always has a parent, it fails exactly when the parent is not a directory and cannot be made, with the message `Failed to create directory '<parent>'`, and otherwise writes to that file with the resolver's encoding |
| WriterResolver.ResolveUnderBase | spring-restdocs-core/src/main/java/org/springframework/restdocs/snippet/StandardWriterResolver.java:54-91 | for a normalised absolute base directory other than `/`, a non-empty operation name and a snippet name, neither name holding `/`, the snippet goes to `base/op/name.adoc` once `base/op` exists or can be created; with no base directory it goes to standard output |
| WriterResolver.EmptyOperationNameIsRooted | spring-restdocs-core/src/main/java/org/springframework/restdocs/snippet/StandardWriterResolver.java:75-82 | with an empty operation name the file is `new File("", name)` for every configuration: the root followed by the normalised name (the normalised name alone when it already starts with `/`), an absolute path, so the configured directory is never consulted |
| WriterResolver.EmptyOperationNameExample | spring-restdocs-core/src/main/java/org/springframework/restdocs/snippet/StandardWriterResolver.java:75-82 | the snippet `a/b` of an operation with an empty name resolves to `/a/b.adoc` even with `/docs` configured |

## Left out

- Base64 decoding and the charset of `new String(bytes)` are the abstract `decodeBase64`. Its only modelled outcome is success or `MalformedCredential`.
- `QueryStringParser.parse` and `Parameters.toQueryString` are abstract functions, so URL encoding is not modelled. `Parameters.toQueryString` is abstract; the `get`, `put`, `add` and `containsKey` that `Parameters` inherits from `LinkedMultiValueMap` are modelled.
- Template rendering (`TemplatedSnippet`), the model map `createModel` builds, and `MediaType.toString` are not modelled. The content type is kept as its printed text. A malformed part content type, which makes `getContentType` throw `InvalidMediaTypeException`, is an error the model does not have.
- `HttpHeaders` storage is an ordered list of entries with their names as spelled. `WellFormed` states its case-insensitive key invariant where a property needs it.
- The `HashSet` iteration order of the filters is not modelled. `FilterOrderIrrelevant` shows it cannot matter.
- File and stream I/O are not modelled: `FileOutputStream`, `OutputStreamWriter`, `System.out` and the effect of `mkdirs`. An I/O failure when opening the file is also left out. `resolve` returns a description of the writer instead.
- WriterResolver.Resolve: an encoding name Java does not support makes `new OutputStreamWriter` throw `UnsupportedEncodingException` in both branches, standard output included; the model accepts every name, so `StandardOutputIff` and `ResolveOutcome` hold only for supported encodings.
- Placeholder expansion (`PropertyPlaceholderHelper`) is not modelled. The operation name is taken already expanded.
- Text.EqualsIgnoreCase: folds ASCII letters only, while Java's `equalsIgnoreCase` folds all of Unicode. Names that differ only in non-ASCII case compare unequal here.
- Text.IsWhitespace: follows the Unicode tables of Java 9 and later. On Java 8, U+180E also counts as whitespace.
- `java.io.File` is modelled for Unix paths only, with `/` as the separator.
- Idempotence of the snippet is not stated separately. Every operation here is a pure function of its inputs.
