/** `StandardWriterResolver`: where a snippet is written. The file is the operation
    name (placeholders already expanded) joined with the snippet name and
    ".adoc", re-rooted under the configured output directory when it is relative;
    a relative file with no directory configured goes to standard output instead,
    while an absolute one is written where it is. */
module WriterResolver {

  import opened Wrappers
  import opened Paths
  import opened Seqs

  const DEFAULT_ENCODING: string := "UTF-8"
  const SNIPPET_EXTENSION: string := ".adoc"

  /** The resolver's only mutable setting. */
  datatype StandardWriterResolver = StandardWriterResolver(encoding: string)

  /** A fresh resolver writes UTF-8. */
  function NewResolver(): (r: StandardWriterResolver)
    ensures r.encoding == "UTF-8"
  {
    StandardWriterResolver(DEFAULT_ENCODING)
  }

  /** `setEncoding`: the name is taken as given, with no validation. */
  function SetEncoding(r: StandardWriterResolver, encoding: string): (r': StandardWriterResolver)
    ensures r'.encoding == encoding
  {
    r.(encoding := encoding)
  }

  /** The documentation context; `None` when no output directory is configured. */
  datatype Context = Context(outputDirectory: Option<string>)

  /** What the file system answers about a directory: whether it exists, and
      whether `mkdirs` would create it. */
  datatype FileSystem = FileSystem(isDirectory: string -> bool, mkdirs: string -> bool)

  /** The writer `resolve` returns, carrying the resolver's encoding. */
  datatype Writer = FileWriter(path: string, encoding: string) | StandardOutput(encoding: string)

  datatype ResolveError =
    | DirectoryCreationFailed(message: string)  // IllegalStateException
    | NoParentDirectory                          // getParentFile() returned null

  /** `resolveFile`: an absolute candidate is kept, a relative one is re-rooted under
      the configured directory, or `None` when there is none. */
  function ResolveFile(outputDirectory: string, fileName: string, ctx: Context): (r: Option<string>)
    ensures IsAbsolute(Child(outputDirectory, fileName)) ==> r == Some(Child(outputDirectory, fileName))
    ensures !IsAbsolute(Child(outputDirectory, fileName)) && ctx.outputDirectory.Some? ==>
      r == Some(Child(ctx.outputDirectory.value, Child(outputDirectory, fileName)))
    ensures r.None? <==> !IsAbsolute(Child(outputDirectory, fileName)) && ctx.outputDirectory.None?
  {
    var outputFile := Child(outputDirectory, fileName);
    if !IsAbsolute(outputFile) then MakeRelativeToConfiguredOutputDir(outputFile, ctx) else Some(outputFile)
  }

  /** `makeRelativeToConfiguredOutputDir`: the file under the configured directory,
      absolute exactly when that directory is absolute or empty. */
  function MakeRelativeToConfiguredOutputDir(outputFile: string, ctx: Context): (r: Option<string>)
    ensures r.Some? <==> ctx.outputDirectory.Some?
    ensures r.Some? ==>
      (IsAbsolute(r.value) <==> |ctx.outputDirectory.value| == 0 || IsAbsolute(ctx.outputDirectory.value))
    ensures r.Some? ==> r.value == Child(ctx.outputDirectory.value, outputFile)
  {
    match ctx.outputDirectory
    case Some(dir) =>
      ChildAbsolute(dir, outputFile);
      Some(Child(dir, outputFile))
    case None => None
  }

  /** `createDirectoriesIfNecessary`: fails only when the parent is not a directory
      and cannot be created. */
  function CreateDirectoriesIfNecessary(outputFile: string, fs: FileSystem): (r: Result<(), ResolveError>)
    ensures Parent(outputFile).Some? ==>
      (r.Err? <==> !fs.isDirectory(Parent(outputFile).value) && !fs.mkdirs(Parent(outputFile).value))
  {
    match Parent(outputFile)
    case None => Err(NoParentDirectory)
    case Some(parent) =>
      if !fs.isDirectory(parent) && !fs.mkdirs(parent) then
        Err(DirectoryCreationFailed("Failed to create directory '" + parent + "'"))
      else Ok(())
  }

  /** `resolve`, given the operation name with its placeholders already replaced. */
  function Resolve(r: StandardWriterResolver, operationName: string, snippetName: string,
                   ctx: Context, fs: FileSystem): Result<Writer, ResolveError>
  {
    match ResolveFile(operationName, snippetName + SNIPPET_EXTENSION, ctx)
    case None => Ok(StandardOutput(r.encoding))
    case Some(outputFile) =>
      match CreateDirectoriesIfNecessary(outputFile, fs)
      case Err(e) => Err(e)
      case Ok(_) => Ok(FileWriter(outputFile, r.encoding))
  }

  // ----- Properties -----

  /** A resolved file name always has a parent directory, so the `null` parent of
      `createDirectoriesIfNecessary` cannot occur. */
  lemma ResolvedFileHasParent(operationName: string, snippetName: string, ctx: Context)
    requires ResolveFile(operationName, snippetName + SNIPPET_EXTENSION, ctx).Some?
    ensures Parent(ResolveFile(operationName, snippetName + SNIPPET_EXTENSION, ctx).value).Some?
  {
    var fileName := snippetName + SNIPPET_EXTENSION;
    assert fileName[|fileName| - 1] == 'c';
    var candidate := Child(operationName, fileName);
    ChildShape(operationName, fileName);
    if !IsAbsolute(candidate) {
      ChildShape(ctx.outputDirectory.value, candidate);
    }
    ParentExists(ResolveFile(operationName, fileName, ctx).value);
  }

  /** `resolve` writes to standard output exactly when the candidate is relative and
      no directory is configured, and then never touches the file system. */
  lemma StandardOutputIff(r: StandardWriterResolver, operationName: string, snippetName: string,
                          ctx: Context, fs: FileSystem)
    ensures Resolve(r, operationName, snippetName, ctx, fs) == Ok(StandardOutput(r.encoding)) <==>
      !IsAbsolute(Child(operationName, snippetName + SNIPPET_EXTENSION)) && ctx.outputDirectory.None?
    ensures forall other: FileSystem :: ctx.outputDirectory.None? && !IsAbsolute(Child(operationName, snippetName + SNIPPET_EXTENSION)) ==>
      Resolve(r, operationName, snippetName, ctx, other) == Resolve(r, operationName, snippetName, ctx, fs)
  {
  }

  /** `resolve` fails exactly when the resolved file's parent is not a directory and
      cannot be created; otherwise it writes to that file with the resolver's
      encoding. */
  lemma ResolveOutcome(r: StandardWriterResolver, operationName: string, snippetName: string,
                       ctx: Context, fs: FileSystem)
    ensures var result := Resolve(r, operationName, snippetName, ctx, fs);
      match ResolveFile(operationName, snippetName + SNIPPET_EXTENSION, ctx)
      case None => result == Ok(StandardOutput(r.encoding))
      case Some(file) =>
        && Parent(file).Some?
        && (result.Err? <==> !fs.isDirectory(Parent(file).value) && !fs.mkdirs(Parent(file).value))
        && (result.Err? ==>
              result.error == DirectoryCreationFailed("Failed to create directory '" + Parent(file).value + "'"))
        && (result.Ok? ==> result.value == FileWriter(file, r.encoding))
  {
    if ResolveFile(operationName, snippetName + SNIPPET_EXTENSION, ctx).Some? {
      ResolvedFileHasParent(operationName, snippetName, ctx);
    }
  }

  /** A name with no separator followed by the snippet extension has none either. */
  lemma SnippetFileName(snippetName: string)
    requires SEPARATOR !in snippetName
    ensures SEPARATOR !in snippetName + SNIPPET_EXTENSION
    ensures Normalized(snippetName + SNIPPET_EXTENSION)
  {
    assert SEPARATOR !in SNIPPET_EXTENSION;
    NoSeparatorNormalized(snippetName + SNIPPET_EXTENSION);
  }

  /** The parent of `dir/name` is `dir` when `name` holds no separator. */
  lemma ParentOfJoin(dir: string, name: string)
    requires IsAbsolute(dir) && SEPARATOR !in name
    ensures Parent(dir + "/" + name) == Some(dir)
  {
    var file := dir + "/" + name;
    var k := |dir|;
    assert file[k] == SEPARATOR;
    forall j | k < j < |file|
      ensures file[j] != SEPARATOR
    {
      assert file[j] == name[j - k - 1];
      assert name[j - k - 1] in name;
    }
    assert LastIndexOf(file, SEPARATOR) == k;
    assert file[..k] == dir;
  }

  /** With base directory `base` (say `/docs`), operation `op` (say `get-example`)
      and snippet `name` (say `curl-request`), the snippet is written to
      `base/op/name.adoc` once `base/op` exists or can be created; with no base
      directory it goes to standard output. */
  lemma ResolveUnderBase(r: StandardWriterResolver, base: string, op: string, snippetName: string, fs: FileSystem)
    requires Normalized(base) && IsAbsolute(base) && base != "/"
    requires op != "" && SEPARATOR !in op
    requires SEPARATOR !in snippetName
    requires fs.isDirectory(base + "/" + op) || fs.mkdirs(base + "/" + op)
    ensures Resolve(r, op, snippetName, Context(Some(base)), fs)
         == Ok(FileWriter(base + "/" + op + "/" + snippetName + SNIPPET_EXTENSION, r.encoding))
    ensures Resolve(r, op, snippetName, Context(None), fs) == Ok(StandardOutput(r.encoding))
  {
    var name := snippetName + SNIPPET_EXTENSION;
    var candidate := op + "/" + name;
    var dir := base + "/" + op;
    var file := base + "/" + candidate;
    assert Child(op, name) == candidate && Normalized(candidate) by {
      SnippetFileName(snippetName);
      NoSeparatorNormalized(op);
      assert op[0] in op;
      ChildInsertsOneSeparator(op, name);
    }
    assert Child(base, candidate) == file by {
      assert !IsAbsolute(candidate);
      ChildInsertsOneSeparator(base, candidate);
    }
    assert file == dir + "/" + name by {
      ConcatAssoc(base + "/", op, "/");
      ConcatAssoc(base + "/", op + "/", name);
    }
    assert dir + "/" + name == base + "/" + op + "/" + snippetName + SNIPPET_EXTENSION by {
      ConcatAssoc(dir + "/", snippetName, SNIPPET_EXTENSION);
    }
    assert Parent(file) == Some(dir) by {
      assert SEPARATOR !in name by {
        SnippetFileName(snippetName);
      }
      ParentOfJoin(dir, name);
    }
    assert ResolveFile(op, name, Context(Some(base))) == Some(file);
    assert CreateDirectoriesIfNecessary(file, fs) == Ok(());
  }

  /** An empty operation name puts the snippet under the root, whatever directory
      is configured: `new File("", name)` resolves the name against "/", so the
      configured directory is never consulted. */
  lemma EmptyOperationNameIsRooted(snippetName: string, ctx: Context)
    ensures var f := snippetName + SNIPPET_EXTENSION;
      && ResolveFile("", f, ctx) == Some(Child("", f))
      && (f[0] != SEPARATOR ==> Child("", f) == "/" + Normalize(f))
      && (f[0] == SEPARATOR ==> Child("", f) == Normalize(f))
      && IsAbsolute(Child("", f))
  {
    var f := snippetName + SNIPPET_EXTENSION;
    ChildAbsolute("", f);
  }

  /** The snippet "a/b" of an operation with an empty name lands at "/a/b.adoc",
      not under the configured "/docs". */
  lemma EmptyOperationNameExample()
    ensures ResolveFile("", "a/b" + SNIPPET_EXTENSION, Context(Some("/docs"))) == Some("/a/b.adoc")
  {
    EmptyOperationNameIsRooted("a/b", Context(Some("/docs")));
    var f := "a/b" + SNIPPET_EXTENSION;
    assert f == "a/b.adoc";
    assert forall i :: 0 <= i < |f| && f[i] == SEPARATOR ==> i == 1;
    assert Normalized(f);
    NormalizeSpec(f);
    assert Normalize(f) == f;
    assert "/" + f == "/a/b.adoc";
  }

  /** Setting the encoding twice keeps the last setting. */
  lemma SetEncodingOverrides(r: StandardWriterResolver, first: string, second: string)
    ensures SetEncoding(SetEncoding(r, first), second) == SetEncoding(r, second)
  {
  }
}
