/** `normalize_reviewed_memory`: the canonical form of an edited memory draft. */
module Normalize {
  import opened Prelude
  import opened Text
  import opened Utf8
  import opened CaptureModel
  import opened Sorting

  const MAX_PATH_BYTES := 4096

  lemma BeforeIsStrictOrder()
    ensures StrictWeakOrder(Before)
  {
    forall a, b, c
      ensures !Before(a, a)
      ensures Before(a, b) && Before(b, c) ==> Before(a, c)
      ensures Before(a, c) ==> Before(a, b) || Before(b, c)
    {
      BeforeLaws(a, b, c);
    }
  }

  lemma BeforeIsTotal(xs: seq<string>)
    ensures TotalOn(Before, xs)
  {
    forall i, j | 0 <= i < |xs| && 0 <= j < |xs|
      ensures Before(xs[i], xs[j]) || xs[i] == xs[j] || Before(xs[j], xs[i])
    {
      BeforeTotal(xs[i], xs[j]);
    }
  }

  /** `split('/')`: at least one component. */
  function Components(path: string): (r: seq<string>)
    ensures r != []
  {
    if path == [] then [""]
    else
      var rest := Components(path[1..]);
      if path[0] == '/' then [""] + rest else [[path[0]] + rest[0]] + rest[1..]
  }

  predicate ValidScopePath(path: string) {
    && path != ""
    && ByteLen(path) <= MAX_PATH_BYTES
    && path[0] != '/'
    && '\\' !in path
    && !HasControl(path)
    && forall c :: c in Components(path) ==> c !in {"", ".", ".."}
  }

  function ScopeIdError(env: Env, id: string): Option<ReviewError> {
    if id == "" || HasControl(id) then Some(InvalidScopeId)
    else if env.prohibited(id) then Some(ProhibitedContent)
    else None
  }

  datatype ListField = ScopePaths | Tags

  function ElementError(env: Env, field: ListField, value: string): Option<ReviewError> {
    if field == ScopePaths && !ValidScopePath(value) then Some(InvalidScopePath)
    else if field == Tags && (value == "" || HasControl(value)) then Some(InvalidTag)
    else if env.prohibited(value) then Some(ProhibitedContent)
    else None
  }

  function TrimEach(xs: seq<string>): (r: seq<string>)
    ensures |r| == |xs| && forall i :: 0 <= i < |xs| ==> r[i] == Trim(xs[i])
  {
    seq(|xs|, i requires 0 <= i < |xs| => Trim(xs[i]))
  }

  /** The first error in list order. */
  function FirstError(env: Env, field: ListField, xs: seq<string>): (r: Option<ReviewError>) {
    if xs == [] then None
    else if ElementError(env, field, xs[0]).Some? then ElementError(env, field, xs[0])
    else FirstError(env, field, xs[1..])
  }

  lemma {:induction false} NoErrorMeaning(env: Env, field: ListField, xs: seq<string>)
    ensures FirstError(env, field, xs).None? <==> forall x :: x in xs ==> ElementError(env, field, x).None?
  {
    if xs != [] {
      NoErrorMeaning(env, field, xs[1..]);
      assert xs == [xs[0]] + xs[1..];
    }
  }

  function CanonicalStrings(xs: seq<string>): seq<string> {
    Canonical(Before, TrimEach(xs))
  }

  function TrimId(id: Option<string>): Option<string> {
    if id.Some? then Some(Trim(id.value)) else None
  }

  function CanonicalScope(scope: Scope): Scope {
    scope.(id := TrimId(scope.id), paths := CanonicalStrings(scope.paths))
  }

  function CanonicalMemory(m: Memory): Memory {
    m.(title := Trim(m.title), body := Trim(m.body), scope := CanonicalScope(m.scope), tags := CanonicalStrings(m.tags))
  }

  /** Which check of the source rejects a draft, in the order the source runs them. */
  function DraftError(env: Env, m: Memory): Option<ReviewError> {
    if Trim(m.title) == "" || Trim(m.body) == "" then Some(TitleAndBodyRequired)
    else if HasControl(Trim(m.title)) then Some(ControlCharacterInTitle)
    else if m.scope.id.Some? && ScopeIdError(env, Trim(m.scope.id.value)).Some? then
      ScopeIdError(env, Trim(m.scope.id.value))
    else
      var p := FirstError(env, ScopePaths, TrimEach(m.scope.paths));
      if p.Some? then p else FirstError(env, Tags, TrimEach(m.tags))
  }

  function Normalized(env: Env, m: Memory): Result<Memory, ReviewError> {
    match DraftError(env, m)
    case Some(e) => Failure(e)
    case None => Success(CanonicalMemory(m))
  }

  lemma CanonicalOfStrings(ys: seq<string>)
    ensures StrictlyAscending(Before, Canonical(Before, ys))
    ensures forall y :: y in Canonical(Before, ys) <==> y in ys
    ensures Canonical(Before, Canonical(Before, ys)) == Canonical(Before, ys)
  {
    BeforeIsStrictOrder();
    BeforeIsTotal(ys);
    CanonicalMeaning(Before, ys);
    BeforeIsTotal(Canonical(Before, ys));
    CanonicalDeterminedByElements(Before, Canonical(Before, ys), ys);
  }

  lemma TrimEachFixed(ys: seq<string>)
    requires forall y :: y in ys ==> Trimmed(y)
    ensures TrimEach(ys) == ys
  {
    forall i | 0 <= i < |ys|
      ensures TrimEach(ys)[i] == ys[i]
    {
      assert ys[i] in ys;
      TrimFixed(ys[i]);
    }
  }

  lemma TrimEachTrims(xs: seq<string>)
    ensures forall y :: y in TrimEach(xs) ==> Trimmed(y)
  {
  }

  /** Trimmed, strictly ascending, same set of trimmed strings; and a fixed point. */
  lemma CanonicalStringsMeaning(xs: seq<string>)
    ensures var r := CanonicalStrings(xs);
            && StrictlyAscending(Before, r)
            && (forall x :: x in r <==> x in TrimEach(xs))
            && TrimEach(r) == r
            && CanonicalStrings(r) == r
  {
    TrimEachTrims(xs);
    CanonicalOfStrings(TrimEach(xs));
    TrimEachFixed(CanonicalStrings(xs));
  }

  lemma CanonicalHasNoError(env: Env, field: ListField, xs: seq<string>)
    requires FirstError(env, field, TrimEach(xs)).None?
    ensures FirstError(env, field, TrimEach(CanonicalStrings(xs))).None?
    ensures forall x :: x in CanonicalStrings(xs) ==> ElementError(env, field, x).None?
  {
    CanonicalStringsMeaning(xs);
    NoErrorMeaning(env, field, TrimEach(xs));
    NoErrorMeaning(env, field, CanonicalStrings(xs));
  }

  lemma CanonicalScopeFixed(scope: Scope)
    ensures var c := CanonicalScope(scope);
            && CanonicalScope(c) == c
            && (c.id.Some? ==> Trim(c.id.value) == c.id.value)
  {
    CanonicalStringsMeaning(scope.paths);
    if scope.id.Some? {
      TrimFixed(Trim(scope.id.value));
    }
  }

  lemma DraftErrorParts(env: Env, m: Memory)
    ensures DraftError(env, m).None? <==>
            && Trim(m.title) != "" && Trim(m.body) != "" && !HasControl(Trim(m.title))
            && (m.scope.id.Some? ==> ScopeIdError(env, Trim(m.scope.id.value)).None?)
            && FirstError(env, ScopePaths, TrimEach(m.scope.paths)).None?
            && FirstError(env, Tags, TrimEach(m.tags)).None?
  {
  }

  /** Normalising is idempotent: a normalised draft is accepted unchanged. */
  lemma NormalizeIdempotent(env: Env, m: Memory)
    requires Normalized(env, m).Success?
    ensures var n := Normalized(env, m).value; Normalized(env, n) == Success(n)
  {
    var n := CanonicalMemory(m);
    DraftErrorParts(env, m);
    CanonicalHasNoError(env, ScopePaths, m.scope.paths);
    CanonicalHasNoError(env, Tags, m.tags);
    DraftErrorParts(env, n);
    assert Trim(n.title) == n.title by { TrimFixed(n.title); }
    assert Trim(n.body) == n.body by { TrimFixed(n.body); }
    assert CanonicalScope(n.scope) == n.scope && (n.scope.id.Some? ==> Trim(n.scope.id.value) == n.scope.id.value) by {
      CanonicalScopeFixed(m.scope);
    }
    assert CanonicalStrings(n.tags) == n.tags by { CanonicalStringsMeaning(m.tags); }
  }

  /** What a normalised draft looks like, and that every accepted draft keeps its content. */
  lemma NormalizedMeaning(env: Env, m: Memory)
    requires Normalized(env, m).Success?
    ensures var n := Normalized(env, m).value;
            && n.memoryType == m.memoryType && n.lane == m.lane && n.scope.kind == m.scope.kind
            && n.title == Trim(m.title) != "" && n.body == Trim(m.body) != ""
            && n.scope.id == TrimId(m.scope.id)
            && StrictlyAscending(Before, n.scope.paths) && StrictlyAscending(Before, n.tags)
            && (forall p :: p in n.scope.paths <==> p in TrimEach(m.scope.paths))
            && (forall t :: t in n.tags <==> t in TrimEach(m.tags))
            && (forall p :: p in n.scope.paths ==> ElementError(env, ScopePaths, p).None?)
            && (forall t :: t in n.tags ==> ElementError(env, Tags, t).None?)
  {
    CanonicalStringsMeaning(m.scope.paths);
    CanonicalStringsMeaning(m.tags);
    CanonicalHasNoError(env, ScopePaths, m.scope.paths);
    CanonicalHasNoError(env, Tags, m.tags);
  }

  method TrimAndCheck(env: Env, field: ListField, xs: seq<string>)
    returns (values: seq<string>, error: Option<ReviewError>)
    ensures error == FirstError(env, field, TrimEach(xs))
    ensures error.None? ==> values == TrimEach(xs)
  {
    hide Trim, ElementError;
    values := xs;
    ghost var trimmed := TrimEach(xs);
    for i := 0 to |xs|
      invariant |values| == |xs|
      invariant forall j :: 0 <= j < i ==> values[j] == trimmed[j]
      invariant forall j :: i <= j < |xs| ==> values[j] == xs[j]
      invariant FirstError(env, field, trimmed) == FirstError(env, field, trimmed[i..])
    {
      values := values[i := Trim(values[i])];
      assert values[i] == trimmed[i..][0];
      assert trimmed[i..][1..] == trimmed[i + 1..];
      error := ElementError(env, field, values[i]);
      if error.Some? {
        return;
      }
    }
    assert trimmed[|xs|..] == [];
    assert values == trimmed;
    error := None;
  }

  /** The in-place edits of the source on its copy of the draft. */
  method NormalizeReviewedMemory(env: Env, memory: Memory) returns (r: Result<Memory, ReviewError>)
    ensures r == Normalized(env, memory)
  {
    var value := memory;
    value := value.(title := Trim(value.title));
    value := value.(body := Trim(value.body));
    if value.title == "" || value.body == "" {
      return Failure(TitleAndBodyRequired);
    }
    if HasControl(value.title) {
      return Failure(ControlCharacterInTitle);
    }
    if value.scope.id.Some? {
      var id := Trim(value.scope.id.value);
      value := value.(scope := value.scope.(id := Some(id)));
      if ScopeIdError(env, id).Some? {
        return Failure(ScopeIdError(env, id).value);
      }
    }
    var paths, pathError := TrimAndCheck(env, ScopePaths, value.scope.paths);
    if pathError.Some? {
      return Failure(pathError.value);
    }
    paths := Sort(Before, paths);
    paths := Dedup(paths);
    value := value.(scope := value.scope.(paths := paths));
    var tags, tagError := TrimAndCheck(env, Tags, value.tags);
    if tagError.Some? {
      return Failure(tagError.value);
    }
    tags := Sort(Before, tags);
    tags := Dedup(tags);
    value := value.(tags := tags);
    return Success(value);
  }
}
