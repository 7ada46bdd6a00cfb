/** The frontend's shared helpers: the NCALayer request envelope and the
    Windows-style path helpers. The path helpers and `extractFileInfo` only
    test their values with `||`, which treats `null` and `undefined` alike, so
    there a value is an `Option<string>` whose `None` stands for both, and the
    empty string is the only other falsy value a string can take. Default
    parameters do tell the two apart; `createRequest` takes an `Argument`. */
module Common {
  import opened Optional
  import opened Text

  const CmsModule: string := "kz.gov.pki.cms.CMSSignUtil"
  const UtilModule: string := "kz.gov.pki.knca.commonUtils"
  const DefaultLang: string := "en"

  /** A string argument of a JavaScript call: left out (or passed as
      `undefined`), passed as `null`, or given. */
  datatype Argument = Omitted | Null | Given(value: string)

  /** The request object sent to NCALayer; a `None` field is sent as `null`.
      `A` is whatever the caller passes as arguments. */
  datatype Request<A> = Request(moduleName: Option<string>, lang: Option<string>, methodName: string, args: A)

  /** A default parameter: only an omitted argument takes the default, an
      explicit `null` is kept. */
  function WithDefault(arg: Argument, default: string): (r: Option<string>)
    ensures arg.Omitted? ==> r == Some(default)
    ensures arg.Null? ==> r.None?
    ensures arg.Given? ==> r == Some(arg.value)
  {
    match arg
    case Omitted => Some(default)
    case Null => None
    case Given(value) => Some(value)
  }

  /** `createRequest`: an omitted module is the CMS module and an omitted
      language is English; method and arguments are passed through. */
  function CreateRequest<A>(methodName: string, args: A, moduleName: Argument, lang: Argument): (r: Request<A>)
    ensures r.methodName == methodName && r.args == args
    ensures moduleName.Omitted? ==> r.moduleName == Some(CmsModule)
    ensures moduleName.Null? ==> r.moduleName.None?
    ensures moduleName.Given? ==> r.moduleName == Some(moduleName.value)
    ensures lang.Omitted? ==> r.lang == Some(DefaultLang)
    ensures lang.Null? ==> r.lang.None?
    ensures lang.Given? ==> r.lang == Some(lang.value)
  {
    Request(WithDefault(moduleName, CmsModule), WithDefault(lang, DefaultLang), methodName, args)
  }

  /** Leaving the module and language out is the same as passing the
      defaults, while an explicit `null` module is not. */
  lemma OmittedMeansDefault<A>(methodName: string, args: A)
    ensures CreateRequest(methodName, args, Omitted, Omitted)
      == CreateRequest(methodName, args, Given(CmsModule), Given(DefaultLang))
    ensures CreateRequest(methodName, args, Null, Omitted) != CreateRequest(methodName, args, Omitted, Omitted)
  {
  }

  /** A JavaScript string value is truthy when present and non-empty. */
  predicate Truthy(v: Option<string>) {
    v.Some? && |v.value| > 0
  }

  /** `value || ''` for a string value. */
  function OrEmpty(v: Option<string>): (r: string)
    ensures Truthy(v) ==> r == v.value
    ensures !Truthy(v) ==> r == ""
  {
    if v.Some? then v.value else ""
  }

  predicate IsSeparator(c: char) {
    c == '\\' || c == '/'
  }

  /** `normalizePath`: every forward slash becomes a backslash. */
  function NormalizePath(value: Option<string>): (r: string)
    ensures |r| == |OrEmpty(value)|
    ensures forall i :: 0 <= i < |r| ==> r[i] == (if OrEmpty(value)[i] == '/' then '\\' else OrEmpty(value)[i])
    ensures '/' !in r
  {
    ReplaceSlashes(OrEmpty(value))
  }

  function ReplaceSlashes(s: string): (r: string)
    ensures |r| == |s|
    ensures forall i :: 0 <= i < |s| ==> r[i] == (if s[i] == '/' then '\\' else s[i])
  {
    if |s| == 0 then "" else [if s[0] == '/' then '\\' else s[0]] + ReplaceSlashes(s[1..])
  }

  /** Normalising twice is normalising once. */
  lemma NormalizePathIdempotent(value: Option<string>)
    ensures NormalizePath(Some(NormalizePath(value))) == NormalizePath(value)
  {
    var once := NormalizePath(value);
    var twice := NormalizePath(Some(once));
    assert |twice| == |once|;
    forall i | 0 <= i < |once| ensures twice[i] == once[i] {
      assert once[i] != '/';
    }
  }

  /** The position of the last separator of either kind, or -1. */
  function LastSeparator(path: string): (k: int)
    ensures -1 <= k < |path|
    ensures k == -1 <==> forall j :: 0 <= j < |path| ==> !IsSeparator(path[j])
    ensures k >= 0 ==> IsSeparator(path[k]) && forall j :: k < j < |path| ==> !IsSeparator(path[j])
  {
    var back := LastIndexOf(path, '\\');
    var slash := LastIndexOf(path, '/');
    if back >= slash then back else slash
  }

  /** `getDirPath`: everything before the last separator, or nothing when
      there is none. */
  function GetDirPath(fullPath: Option<string>): (r: string)
    ensures var path := OrEmpty(fullPath);
      && |r| <= |path| && r == path[..|r|]
      && (|path| > 0 ==> |r| < |path|)
      && ((forall j :: 0 <= j < |path| ==> !IsSeparator(path[j])) ==> r == "")
      && ((exists j :: 0 <= j < |path| && IsSeparator(path[j])) ==>
            IsSeparator(path[|r|]) && forall j :: |r| < j < |path| ==> !IsSeparator(path[j]))
  {
    var path := OrEmpty(fullPath);
    var last := LastSeparator(path);
    if last >= 0 then path[..last] else ""
  }

  /** `getFileName`: everything after the last backslash, or the whole path
      when it has none. Forward slashes are not separators here. */
  function GetFileName(fullPath: Option<string>): (r: string)
    ensures var path := OrEmpty(fullPath);
      && |r| <= |path| && r == path[|path| - |r|..]
      && '\\' !in r
      && ('\\' !in path ==> r == path)
      && ('\\' in path ==> path[|path| - |r| - 1] == '\\')
  {
    var path := OrEmpty(fullPath);
    var last := LastIndexOf(path, '\\');
    if last >= 0 then path[last + 1..] else path
  }

  /** A backslash path without forward slashes is its directory, a backslash
      and its file name. */
  lemma DirAndFileReassemble(p: string)
    requires '\\' in p && '/' !in p
    ensures GetDirPath(Some(p)) + "\\" + GetFileName(Some(p)) == p
  {
    var d, f := GetDirPath(Some(p)), GetFileName(Some(p));
    var k := LastIndexOf(p, '\\');
    assert LastIndexOf(p, '/') == -1;
    assert d == p[..k] && f == p[k + 1..];
    assert p == p[..k] + [p[k]] + p[k + 1..];
  }

  /** After normalisation every path with a separator of either kind reassembles. */
  lemma NormalizedPathReassembles(value: Option<string>)
    requires exists j :: 0 <= j < |OrEmpty(value)| && IsSeparator(OrEmpty(value)[j])
    ensures var p := NormalizePath(value);
      GetDirPath(Some(p)) + "\\" + GetFileName(Some(p)) == p
  {
    var p := NormalizePath(value);
    var j :| 0 <= j < |OrEmpty(value)| && IsSeparator(OrEmpty(value)[j]);
    assert p[j] == '\\';
    DirAndFileReassemble(p);
  }

  /** The asymmetry between the two helpers: a path separated only by
      forward slashes has a directory, yet its file name is the whole path,
      so the two no longer reassemble. */
  lemma ForwardSlashAsymmetry(p: string)
    requires '/' in p && '\\' !in p
    ensures GetFileName(Some(p)) == p
    ensures |GetDirPath(Some(p))| < |p|
    ensures GetDirPath(Some(p)) + "\\" + GetFileName(Some(p)) != p
  {
    var d := GetDirPath(Some(p));
    var k :| 0 <= k < |p| && p[k] == '/';
    assert IsSeparator(p[k]);
    assert |d + "\\" + p| > |p|;
  }

  /** What NCALayer may report about a chosen file; every field is optional. */
  datatype FileResult = FileResult(
    fullPath: Option<string>, filePath: Option<string>, path: Option<string>, file: Option<string>,
    fileName: Option<string>, filename: Option<string>, name: Option<string>,
    directory: Option<string>, dir: Option<string>, folder: Option<string>, filedir: Option<string>)

  datatype FileInfo = FileInfo(fullPath: string, fileName: string, dirPath: string)

  /** `a || b || … || ''`: the first truthy candidate, or the empty string. */
  function FirstTruthy(candidates: seq<Option<string>>): (r: string)
    ensures r == "" <==> forall i :: 0 <= i < |candidates| ==> !Truthy(candidates[i])
    ensures r != "" ==> exists i :: (0 <= i < |candidates| && candidates[i] == Some(r)
      && forall j :: 0 <= j < i ==> !Truthy(candidates[j]))
  {
    if |candidates| == 0 then ""
    else if Truthy(candidates[0]) then candidates[0].value
    else
      var r := FirstTruthy(candidates[1..]);
      assert forall i :: 1 <= i < |candidates| ==> candidates[i] == candidates[1..][i - 1];
      if r != "" then
        var i :| 0 <= i < |candidates[1..]| && candidates[1..][i] == Some(r)
          && forall j :: 0 <= j < i ==> !Truthy(candidates[1..][j]);
        assert candidates[i + 1] == Some(r);
        r
      else r
  }

  function FullPathCandidates(f: FileResult): seq<Option<string>> {
    [f.fullPath, f.filePath, f.path, f.file]
  }

  function FileNameCandidates(f: FileResult): seq<Option<string>> {
    [f.fileName, f.filename, f.name]
  }

  function DirectoryCandidates(f: FileResult): seq<Option<string>> {
    [f.directory, f.dir, f.folder, f.filedir]
  }

  /** `extractFileInfo`. A missing result (`null`/`undefined`) behaves like a
      result with no fields. */
  function ExtractFileInfo(result: Option<FileResult>): (r: FileInfo)
    ensures result.None? ==> r == FileInfo("", "", "")
    ensures result.Some? ==>
      && r.fullPath == FirstTruthy(FullPathCandidates(result.value))
      && r.fileName == FirstTruthy(FileNameCandidates(result.value))
    ensures result.Some? && FirstTruthy(DirectoryCandidates(result.value)) != "" ==>
      r.dirPath == FirstTruthy(DirectoryCandidates(result.value))
    ensures result.Some? && FirstTruthy(DirectoryCandidates(result.value)) == "" ==>
      r.dirPath == (if r.fullPath == "" then "" else GetDirPath(Some(r.fullPath)))
  {
    match result
    case None => FileInfo("", "", "")
    case Some(f) =>
      var fullPath := FirstTruthy(FullPathCandidates(f));
      var fileName := FirstTruthy(FileNameCandidates(f));
      var given := FirstTruthy(DirectoryCandidates(f));
      var dirPath := if given != "" then given else if fullPath != "" then GetDirPath(Some(fullPath)) else "";
      FileInfo(fullPath, fileName, dirPath)
  }

  /** A derived directory is always a proper prefix of the chosen full path. */
  lemma DerivedDirectoryIsPrefix(f: FileResult)
    requires FirstTruthy(DirectoryCandidates(f)) == ""
    ensures var info := ExtractFileInfo(Some(f));
      && |info.dirPath| <= |info.fullPath|
      && info.dirPath == info.fullPath[..|info.dirPath|]
      && (info.fullPath != "" ==> |info.dirPath| < |info.fullPath|)
  {
  }

  /** The earliest truthy field wins: `fullPath` shadows `filePath`, which
      shadows `path`, which shadows `file`. */
  lemma FullPathPrecedence(f: FileResult)
    ensures Truthy(f.fullPath) ==> ExtractFileInfo(Some(f)).fullPath == f.fullPath.value
    ensures !Truthy(f.fullPath) && Truthy(f.filePath) ==> ExtractFileInfo(Some(f)).fullPath == f.filePath.value
    ensures !Truthy(f.fullPath) && !Truthy(f.filePath) && Truthy(f.path) ==> ExtractFileInfo(Some(f)).fullPath == f.path.value
  {
    var c := FullPathCandidates(f);
    assert c[0] == f.fullPath && c[1] == f.filePath && c[2] == f.path;
    assert c[1..][0] == f.filePath && c[1..][1..][0] == f.path;
  }
}
