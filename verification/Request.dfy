/** `validate_request`, for the Markdown profile: the one place where its sources are admitted. */
module Request {
  import opened Prelude
  import opened Text
  import opened Utf8
  import opened CaptureModel
  import opened Normalize

  const MARKDOWN_MEDIA := "text/markdown"
  const MAX_SOURCE_ID := 64

  datatype SourceRequest = SourceRequest(sourceId: string, locator: Locator, mediaType: string, hasGitContext: bool)

  datatype RequestError =
    | InvalidSourceId | ProhibitedSourceId | WrongMediaType | NotAProjectPath | HasGitContext
    | PathNotRelative | ManagedState | ProhibitedPath | NotAMarkdownFile

  function SourceOf(r: SourceRequest, contentHash: string): Source {
    Source(r.sourceId, r.locator, contentHash)
  }

  predicate IsIdStart(c: char) {
    'a' <= c <= 'z' || '0' <= c <= '9'
  }

  predicate ValidSourceId(id: string) {
    && 1 <= |id| <= MAX_SOURCE_ID && IsIdStart(id[0])
    && forall i :: 0 <= i < |id| ==> IsIdStart(id[i]) || id[i] in {'.', '_', '-'}
  }

  predicate ManagedComponent(component: string) {
    AsciiLower(component) in {".memzoi", ".git"}
  }

  /** `validate_project_relative`; its first check is the one a reviewed scope path has to pass. */
  function RelativeError(env: Env, path: string): Option<RequestError> {
    if !ValidScopePath(path) then Some(PathNotRelative)
    else if exists c :: c in Components(path) && ManagedComponent(c) then Some(ManagedState)
    else if env.prohibited(path) then Some(ProhibitedPath)
    else None
  }

  /** A file name with a stem and the extension `md`. */
  predicate HasMarkdownExtension(path: string) {
    var parts := Components(path);
    var name := parts[|parts| - 1];
    |name| > 3 && name[|name| - 3..] == ".md"
  }

  function MarkdownRequestError(env: Env, r: SourceRequest): Option<RequestError> {
    if !ValidSourceId(r.sourceId) then Some(InvalidSourceId)
    else if env.prohibited(r.sourceId) then Some(ProhibitedSourceId)
    else if r.mediaType != MARKDOWN_MEDIA then Some(WrongMediaType)
    else if !r.locator.ProjectPath? then Some(NotAProjectPath)
    else if r.hasGitContext then Some(HasGitContext)
    else if RelativeError(env, r.locator.path).Some? then RelativeError(env, r.locator.path)
    else if !HasMarkdownExtension(r.locator.path) then Some(NotAMarkdownFile)
    else None
  }

  lemma {:induction false} OnlyComponent(path: string)
    requires |Components(path)| == 1
    ensures Components(path) == [path]
  {
    if path != [] {
      var rest := Components(path[1..]);
      assert path[0] != '/';
      assert |[[path[0]] + rest[0]] + rest[1..]| == |rest|;
      OnlyComponent(path[1..]);
      assert [path[0]] + path[1..] == path;
    }
  }

  /** The last component is the end of the path. */
  lemma {:induction false} LastComponent(path: string)
    ensures var parts := Components(path); var name := parts[|parts| - 1];
            |name| <= |path| && name == path[|path| - |name|..]
  {
    if path != [] {
      LastComponent(path[1..]);
      var rest := Components(path[1..]);
      if path[0] != '/' && |rest| == 1 {
        assert Components(path) == [[path[0]] + rest[0]];
        assert rest[0] == path[1..] by { OnlyComponent(path[1..]); }
      }
    }
  }

  /** The path of an accepted Markdown request passes the reviewed form's check, and trimming leaves it alone
      exactly when it does not begin with a blank. */
  lemma AcceptedPath(env: Env, r: SourceRequest)
    requires MarkdownRequestError(env, r).None?
    ensures r.locator.ProjectPath? && r.locator.path != ""
    ensures ElementError(env, ScopePaths, r.locator.path).None?
    ensures Trim(r.locator.path) == r.locator.path <==> !IsWhitespace(r.locator.path[0])
  {
    hide IsWhitespace, ManagedComponent;
    var path := r.locator.path;
    LastComponent(path);
    var parts := Components(path);
    var name := parts[|parts| - 1];
    assert path[|path| - 1] == name[|name| - 1] == name[|name| - 3..][2] == 'd';
    WhitespaceBelow('d');
    if !IsWhitespace(path[0]) {
      TrimFixed(path);
    } else {
      assert Trimmed(Trim(path));
    }
  }

  lemma {:induction false} OneComponent(path: string)
    requires '/' !in path
    ensures Components(path) == [path]
  {
    if path != "" {
      OneComponent(path[1..]);
      assert [path[0]] + path[1..] == path;
    }
  }

  lemma {:induction false} AsciiLength(s: string)
    requires forall i :: 0 <= i < |s| ==> s[i] < '\U{80}'
    ensures ByteLen(s) == |s|
  {
    if s != "" {
      AsciiLength(s[1..]);
    }
  }

  lemma {:induction false} LowerFirst(s: string)
    requires s != ""
    ensures |AsciiLower(s)| >= 1
    ensures AsciiLower(s)[0] == if 'A' <= s[0] <= 'Z' then ((s[0] as int) + 32) as char else s[0]
  {
  }

  lemma LowerKeeps(path: string)
    requires path != "" && path[0] != '.'
    ensures !ManagedComponent(path)
  {
    hide AsciiLower;
    LowerFirst(path);
    assert ".memzoi"[0] == '.' && ".git"[0] == '.';
  }

  /** A plain file name with the Markdown extension is an admitted path. */
  lemma SimplePathIsAdmitted(env: Env, stem: string)
    requires 1 <= |stem| <= 100 && forall i :: 0 <= i < |stem| ==> 'a' <= stem[i] <= 'z' || stem[i] == ' '
    requires !env.prohibited("s") && !env.prohibited(stem + ".md")
    ensures MarkdownRequestError(env, SourceRequest("s", ProjectPath(stem + ".md"), MARKDOWN_MEDIA, false)).None?
  {
    hide Components, AsciiLower, ByteLen;
    var path := stem + ".md";
    OneComponent(path);
    AsciiLength(path);
    assert path[0] == stem[0] && path[|path| - 3..] == ".md";
    assert path !in {"", ".", ".."};
    assert !ManagedComponent(path) by { LowerKeeps(path); }
  }
}
