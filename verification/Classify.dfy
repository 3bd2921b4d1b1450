/** `classify_actions`: what each candidate becomes against the inventory and the candidates before it. */
module Classify {
  import opened Prelude
  import opened Text
  import opened Sorting
  import opened ProposalIds
  import opened CaptureModel

  // ------------------------------------------------------------- keys

  function DraftKeyOf(env: Env, m: Memory): DraftKey {
    DraftKey(m.memoryType, m.lane, env.lowercase(Trim(m.title)), Trim(m.body), m.scope)
  }

  function ConflictKeyOf(env: Env, m: Memory): ConflictKey {
    ConflictKey(m.memoryType, env.lowercase(Trim(m.title)), m.scope.kind, m.scope.id)
  }

  /** An exact duplicate always shares the conflict key. */
  lemma ExactKeyRefinesConflictKey(env: Env, m: Memory, n: Memory)
    requires DraftKeyOf(env, m) == DraftKeyOf(env, n)
    ensures ConflictKeyOf(env, m) == ConflictKeyOf(env, n)
  {
  }

  function EntryMemory(e: InventoryEntry): Memory {
    Memory(e.memoryType, e.lane, e.title, e.body, e.scope, [])
  }

  predicate SameDraft(env: Env, m: Memory, e: InventoryEntry) {
    DraftKeyOf(env, EntryMemory(e)) == DraftKeyOf(env, m)
  }

  predicate SameSubject(env: Env, m: Memory, e: InventoryEntry) {
    ConflictKeyOf(env, EntryMemory(e)) == ConflictKeyOf(env, m)
  }

  // ------------------------------------------------------------- matches

  function KindRank(k: MatchKind): nat {
    match k
    case CanonicalRecord => 0
    case PendingProposal => 1
    case RuntimeRecord => 2
    case EarlierCandidate => 3
  }

  predicate MatchBefore(a: Match, b: Match) {
    KindRank(a.kind) < KindRank(b.kind) || (a.kind == b.kind && Before(a.id, b.id))
  }

  lemma MatchOrder()
    ensures StrictWeakOrder(MatchBefore)
  {
    forall a, b, c: Match
      ensures !MatchBefore(a, a)
      ensures MatchBefore(a, b) && MatchBefore(b, c) ==> MatchBefore(a, c)
      ensures MatchBefore(a, c) ==> MatchBefore(a, b) || MatchBefore(b, c)
    {
      BeforeLaws(a.id, b.id, c.id);
    }
  }

  function MatchOf(env: Env, e: InventoryEntry): Match {
    Match(e.kind, e.id, Some(e.destination), DraftKeyOf(env, EntryMemory(e)), e.status, e.updatedAt)
  }

  /** The two relations a match can stand for; a conflict is a shared subject without a shared draft. */
  datatype Relation = ExactDraft | SubjectOnly

  predicate Related(env: Env, r: Relation, m: Memory, e: InventoryEntry) {
    match r
    case ExactDraft => SameDraft(env, m, e)
    case SubjectOnly => !SameDraft(env, m, e) && SameSubject(env, m, e)
  }

  function Matches(env: Env, r: Relation, entries: seq<InventoryEntry>, m: Memory): seq<Match> {
    if entries == [] then []
    else
      var n := |entries| - 1;
      Matches(env, r, entries[..n], m) + (if Related(env, r, m, entries[n]) then [MatchOf(env, entries[n])] else [])
  }

  lemma {:induction false} MatchesMeaning(env: Env, r: Relation, entries: seq<InventoryEntry>, m: Memory)
    ensures forall x :: x in Matches(env, r, entries, m) <==>
      exists e :: e in entries && Related(env, r, m, e) && x == MatchOf(env, e)
    ensures Matches(env, r, entries, m) == [] <==> forall e :: e in entries ==> !Related(env, r, m, e)
  {
    hide Related, MatchOf;
    if entries != [] {
      var n := |entries| - 1;
      MatchesMeaning(env, r, entries[..n], m);
      assert entries == entries[..n] + [entries[n]];
    }
  }

  // ------------------------------------------------------------- one candidate

  function Reidentified(env: Env, c: Candidate): Candidate {
    c.(candidateId := env.candidateId(c.claimId, c.confidence, c.classification, c.action))
  }

  function ReviewRequired(c: Classification, reason: Reason): Classification {
    c.(destination := NeedsReview, destinationReason := reason, policy := Policy(NeedsReview))
  }

  /** `apply_runtime_inventory_availability`. */
  function WithRuntime(runtimeAvailable: bool, c: Candidate): Candidate {
    if runtimeAvailable || !c.action.CreateRuntime? then c
    else c.(classification := ReviewRequired(c.classification, RuntimeInventoryUnavailableRequiresReview),
                 action := NoWrite(RuntimeInventoryUnavailable))
  }

  /** The action an unmatched candidate gets from its policy. */
  ghost function RoutedAction(c: Candidate, used: set<string>): Action {
    match c.classification.policy.writeRoute
    case FileBackedProposal => CreateProposal(ReservedId(c.memory.title, used))
    case RuntimeLocal => CreateRuntime(RuntimeLocal)
    case RuntimeSession => CreateRuntime(RuntimeSession)
    case NoWriteRoute => NoWrite(NeedsReviewReason)
  }

  ghost function Resolved(env: Env, entries: seq<InventoryEntry>, used: set<string>, c: Candidate): Candidate {
    var duplicates := Matches(env, ExactDraft, entries, c.memory);
    var conflicts := Matches(env, SubjectOnly, entries, c.memory);
    if duplicates != [] then
      c.(action := Duplicate(Sort(MatchBefore, duplicates)))
    else if conflicts != [] then
      c.(classification := ReviewRequired(c.classification, PossibleConflictRequiresLifecycleResolution),
         action := Conflict(Sort(MatchBefore, conflicts)))
    else
      c.(action := RoutedAction(c, used))
  }

  ghost function Classified(
    env: Env, runtimeAvailable: bool, entries: seq<InventoryEntry>, used: set<string>, c: Candidate): Candidate
  {
    if c.action.Replay? then Reidentified(env, c)
    else Reidentified(env, WithRuntime(runtimeAvailable, Resolved(env, entries, used, c)))
  }

  // ------------------------------------------------------------- the whole list

  function EarlierEntry(c: Candidate): InventoryEntry {
    InventoryEntry(EarlierCandidate, c.candidateId, c.classification.destination, c.memory.memoryType, c.memory.lane,
                   c.memory.title, c.memory.body, c.memory.scope, "planned", None)
  }

  /** The entries the classified candidates leave behind for the ones after them. */
  function EarlierEntries(out: seq<Candidate>): seq<InventoryEntry> {
    if out == [] then []
    else
      var n := |out| - 1;
      EarlierEntries(out[..n]) + (if out[n].action.Replay? then [] else [EarlierEntry(out[n])])
  }

  function OwnProposalId(c: Candidate): set<string> {
    if c.action.CreateProposal? then {c.action.proposalId} else {}
  }

  function ProposalIdsOf(out: seq<Candidate>): set<string> {
    set c | c in out && c.action.CreateProposal? :: c.action.proposalId
  }

  ghost function ClassifiedNext(env: Env, inv: Inventory, done: seq<Candidate>, c: Candidate): Candidate {
    Classified(env, inv.runtimeAvailable, inv.entries + EarlierEntries(done), inv.reservedIds + ProposalIdsOf(done), c)
  }

  /** Each candidate is classified against the inventory and what the classified prefix left behind. */
  ghost function ClassifiedAll(env: Env, inv: Inventory, cs: seq<Candidate>): (out: seq<Candidate>)
    ensures |out| == |cs|
  {
    if cs == [] then []
    else
      var n := |cs| - 1;
      var done := ClassifiedAll(env, inv, cs[..n]);
      done + [ClassifiedNext(env, inv, done, cs[n])]
  }

  lemma {:induction false} ClassifiedAt(env: Env, inv: Inventory, cs: seq<Candidate>, i: nat)
    requires i < |cs|
    ensures var out := ClassifiedAll(env, inv, cs);
            && out[..i] == ClassifiedAll(env, inv, cs[..i])
            && out[i] == ClassifiedNext(env, inv, out[..i], cs[i])
  {
    hide ClassifiedNext;
    var n := |cs| - 1;
    if i < n {
      ClassifiedAt(env, inv, cs[..n], i);
      assert cs[..n][..i] == cs[..i];
      var out, init := ClassifiedAll(env, inv, cs), ClassifiedAll(env, inv, cs[..n]);
      assert out[..i] == init[..i];
    }
  }

  lemma {:induction false} EarlierEntriesMeaning(out: seq<Candidate>)
    ensures forall e :: e in EarlierEntries(out) <==>
      exists i :: 0 <= i < |out| && !out[i].action.Replay? && e == EarlierEntry(out[i])
  {
    if out != [] {
      var n := |out| - 1;
      EarlierEntriesMeaning(out[..n]);
      assert out == out[..n] + [out[n]];
    }
  }

  method CollectMatches(env: Env, entries: seq<InventoryEntry>, m: Memory)
    returns (duplicates: seq<Match>, conflicts: seq<Match>)
    ensures duplicates == Matches(env, ExactDraft, entries, m) && conflicts == Matches(env, SubjectOnly, entries, m)
  {
    hide SameDraft, SameSubject, MatchOf;
    duplicates, conflicts := [], [];
    for i := 0 to |entries|
      invariant duplicates == Matches(env, ExactDraft, entries[..i], m)
      invariant conflicts == Matches(env, SubjectOnly, entries[..i], m)
    {
      assert entries[..i + 1][..i] == entries[..i];
      if SameDraft(env, m, entries[i]) {
        duplicates := duplicates + [MatchOf(env, entries[i])];
      } else if SameSubject(env, m, entries[i]) {
        conflicts := conflicts + [MatchOf(env, entries[i])];
      }
    }
    assert entries[..|entries|] == entries;
  }

  /** The body of the source's loop for a candidate that is no replay. */
  method ClassifyCandidate(
    env: Env, entries: seq<InventoryEntry>, candidate: Candidate, ids: Reservations, runtimeAvailable: bool)
    returns (c: Candidate)
    requires !candidate.action.Replay?
    modifies ids
    ensures c == Classified(env, runtimeAvailable, entries, old(ids.used), candidate)
    ensures ids.used == old(ids.used) + OwnProposalId(c)
  {
    hide ReservedId, Sort, Matches;
    var duplicates, conflicts := CollectMatches(env, entries, candidate.memory);
    c := candidate;
    if duplicates != [] {
      c := c.(action := Duplicate(Sort(MatchBefore, duplicates)));
    } else if conflicts != [] {
      c := c.(classification := ReviewRequired(c.classification, PossibleConflictRequiresLifecycleResolution),
              action := Conflict(Sort(MatchBefore, conflicts)));
    } else {
      match c.classification.policy.writeRoute
      case FileBackedProposal =>
        var id, _ := ids.Reserve(c.memory.title);
        c := c.(action := CreateProposal(id));
      case RuntimeLocal | RuntimeSession =>
        c := c.(action := CreateRuntime(c.classification.policy.writeRoute));
      case NoWriteRoute =>
        c := c.(action := NoWrite(NeedsReviewReason));
    }
    c := Reidentified(env, WithRuntime(runtimeAvailable, c));
  }

  lemma NothingClassified(env: Env, inv: Inventory)
    ensures ClassifiedAll(env, inv, []) == [] && EarlierEntries([]) == [] && ProposalIdsOf([]) == {}
  {
  }

  lemma ProposalIdsExtend(done: seq<Candidate>, c: Candidate)
    ensures ProposalIdsOf(done + [c]) ==
            ProposalIdsOf(done) + OwnProposalId(c)
  {
    var all := done + [c];
    assert c in all && forall d :: d in all <==> d in done || d == c;
  }

  lemma OneMoreClassified(env: Env, inv: Inventory, cs: seq<Candidate>, i: nat, c: Candidate)
    requires i < |cs|
    requires c == ClassifiedNext(env, inv, ClassifiedAll(env, inv, cs[..i]), cs[i])
    ensures var done := ClassifiedAll(env, inv, cs[..i]);
            && ClassifiedAll(env, inv, cs[..i + 1]) == done + [c]
            && EarlierEntries(done + [c]) == EarlierEntries(done) + (if c.action.Replay? then [] else [EarlierEntry(c)])
            && ProposalIdsOf(done + [c]) == ProposalIdsOf(done) + OwnProposalId(c)
  {
    hide ClassifiedNext, EarlierEntry;
    var done := ClassifiedAll(env, inv, cs[..i]);
    assert cs[..i + 1][..i] == cs[..i] && (done + [c])[..i] == done;
    ProposalIdsExtend(done, c);
  }

  lemma ReplayStays(env: Env, inv: Inventory, done: seq<Candidate>, c: Candidate)
    ensures var r := ClassifiedNext(env, inv, done, c);
            && r.action.Replay? == c.action.Replay?
            && (c.action.Replay? ==> r == Reidentified(env, c) && OwnProposalId(r) == {})
  {
    hide ReservedId, Sort, Matches;
  }

  /** `classify_actions_with_reserved`: the candidates and the reservations change in place. */
  method ClassifyInPlace(
    env: Env, inventory: seq<InventoryEntry>, candidates: array<Candidate>, ids: Reservations, runtimeAvailable: bool)
    modifies candidates, ids
    ensures var inv := Inventory(inventory, old(ids.used), runtimeAvailable);
            candidates[..] == ClassifiedAll(env, inv, old(candidates[..]))
    ensures ids.used == old(ids.used) + ProposalIdsOf(candidates[..])
  {
    hide Classified, ReservedId, EarlierEntry, ProposalIdsOf, EarlierEntries, ClassifiedAll, OwnProposalId;
    ghost var before := candidates[..];
    ghost var inv := Inventory(inventory, ids.used, runtimeAvailable);
    var earlier: seq<InventoryEntry> := [];
    var i := 0;
    NothingClassified(env, inv);
    while i < candidates.Length
      invariant 0 <= i <= candidates.Length
      invariant candidates[..i] == ClassifiedAll(env, inv, before[..i])
      invariant forall j :: i <= j < |before| ==> candidates[j] == before[j]
      invariant earlier == EarlierEntries(candidates[..i])
      invariant ids.used == inv.reservedIds + ProposalIdsOf(candidates[..i])
    {
      ghost var done := candidates[..i];
      var c;
      if candidates[i].action.Replay? {
        c := Reidentified(env, candidates[i]);
      } else {
        c := ClassifyCandidate(env, inventory + earlier, candidates[i], ids, runtimeAvailable);
        earlier := earlier + [EarlierEntry(c)];
      }
      ReplayStays(env, inv, done, before[i]);
      OneMoreClassified(env, inv, before, i, c);
      candidates[i] := c;
      assert candidates[..i + 1] == done + [c];
      i := i + 1;
    }
    assert candidates[..] == candidates[..i] && before[..i] == before;
  }

  // ------------------------------------------------------------- meaning

  /** What the i-th candidate is compared with: the inventory, and every earlier candidate that is no replay. */
  ghost predicate SeenBefore(inv: Inventory, out: seq<Candidate>, i: nat, e: InventoryEntry)
    requires i <= |out|
  {
    e in inv.entries || exists j :: 0 <= j < i && !out[j].action.Replay? && e == EarlierEntry(out[j])
  }

  lemma SortedMatches(ms: seq<Match>)
    ensures var r := Sort(MatchBefore, ms);
            && Ascending(MatchBefore, r)
            && (r == [] <==> ms == [])
            && forall x :: x in r <==> x in ms
  {
    MatchOrder();
    SortPermutes(MatchBefore, ms);
    SameElements(Sort(MatchBefore, ms), ms);
    SortAscends(MatchBefore, ms);
  }

  predicate Downgraded(c: Candidate) {
    c.action == NoWrite(RuntimeInventoryUnavailable)
  }

  /** A candidate without a match gets the action of its policy; a runtime route needs the runtime. */
  ghost predicate RoutedByPolicy(runtime: bool, before: Candidate, c: Candidate) {
    match before.classification.policy.writeRoute
    case FileBackedProposal => c.action.CreateProposal? && c.classification == before.classification
    case NoWriteRoute => c.action == NoWrite(NeedsReviewReason) && c.classification == before.classification
    case route =>
      if runtime then c.action == CreateRuntime(route) && c.classification == before.classification
      else Downgraded(c) && c.classification
                            == ReviewRequired(before.classification, RuntimeInventoryUnavailableRequiresReview)
  }

  /** The memory and claim are kept, and the outcome says exactly which entries were compared: a duplicate
      lists all exact matches, a conflict all matches of its subject, anything else had no match. */
  ghost predicate OutcomeIsJustified(
    env: Env, runtime: bool, seen: InventoryEntry -> bool, before: Candidate, c: Candidate)
  {
    var m := before.memory;
    && c.memory == m && c.claimId == before.claimId && c.evidence == before.evidence
    && c.candidateId == env.candidateId(c.claimId, c.confidence, c.classification, c.action)
    && (c.action.Duplicate? <==> exists e :: seen(e) && SameDraft(env, m, e))
    && (c.action.Conflict? <==> !c.action.Duplicate? && exists e :: seen(e) && SameSubject(env, m, e))
    && (c.action.Duplicate? ==>
          && Ascending(MatchBefore, c.action.matches) && c.classification == before.classification
          && forall x :: x in c.action.matches <==> exists e :: seen(e) && SameDraft(env, m, e) && x == MatchOf(env, e))
    && (c.action.Conflict? ==>
          && Ascending(MatchBefore, c.action.matches)
          && c.classification == ReviewRequired(before.classification, PossibleConflictRequiresLifecycleResolution)
          && forall x :: x in c.action.matches <==>
               exists e :: seen(e) && SameSubject(env, m, e) && x == MatchOf(env, e))
    && (!c.action.Duplicate? && !c.action.Conflict? ==> RoutedByPolicy(runtime, before, c))
  }

  lemma DraftMatchIsSubjectMatch(env: Env, entries: seq<InventoryEntry>, m: Memory)
    ensures forall e :: SameDraft(env, m, e) ==> SameSubject(env, m, e)
  {
  }

  lemma ClassifiedOutcome(env: Env, runtime: bool, entries: seq<InventoryEntry>, used: set<string>, c: Candidate)
    requires !c.action.Replay?
    ensures OutcomeIsJustified(env, runtime, e => e in entries, c, Classified(env, runtime, entries, used, c))
  {
    hide ReservedId, Matches, Sort, SameDraft, SameSubject, MatchOf;
    MatchesMeaning(env, ExactDraft, entries, c.memory);
    MatchesMeaning(env, SubjectOnly, entries, c.memory);
    SortedMatches(Matches(env, ExactDraft, entries, c.memory));
    SortedMatches(Matches(env, SubjectOnly, entries, c.memory));
    DraftMatchIsSubjectMatch(env, entries, c.memory);
  }

  lemma EntriesSeen(inv: Inventory, out: seq<Candidate>, i: nat)
    requires i <= |out|
    ensures forall e :: e in inv.entries + EarlierEntries(out[..i]) <==> SeenBefore(inv, out, i, e)
  {
    EarlierEntriesMeaning(out[..i]);
  }

  lemma ClassifiedMeaning(env: Env, inv: Inventory, cs: seq<Candidate>, i: nat)
    requires i < |cs| && !cs[i].action.Replay?
    ensures var out := ClassifiedAll(env, inv, cs);
            OutcomeIsJustified(env, inv.runtimeAvailable, e => SeenBefore(inv, out, i, e), cs[i], out[i])
  {
    hide Classified, SameDraft, SameSubject, MatchOf, ClassifiedAll, RoutedByPolicy;
    var out := ClassifiedAll(env, inv, cs);
    ClassifiedAt(env, inv, cs, i);
    EntriesSeen(inv, out, i);
    ClassifiedOutcome(env, inv.runtimeAvailable, inv.entries + EarlierEntries(out[..i]),
                      inv.reservedIds + ProposalIdsOf(out[..i]), cs[i]);
  }

  lemma ConflictKeyIgnoresTags(env: Env, m: Memory)
    ensures ConflictKeyOf(env, m.(tags := [])) == ConflictKeyOf(env, m)
    ensures DraftKeyOf(env, m.(tags := [])) == DraftKeyOf(env, m)
  {
  }

  /** A routeable candidate is the first with its subject: nothing in the inventory and no earlier
      candidate shares it. So at most one candidate per conflict key is routeable. */
  lemma RouteableIsFirstOfItsSubject(env: Env, inv: Inventory, cs: seq<Candidate>, i: nat)
    requires i < |cs| && !cs[i].action.Replay?
    ensures var out := ClassifiedAll(env, inv, cs);
            out[i].action.Routeable() ==>
              && (forall e :: e in inv.entries ==> !SameSubject(env, out[i].memory, e))
              && (forall j :: 0 <= j < i && !out[j].action.Replay? ==>
                    ConflictKeyOf(env, out[j].memory) != ConflictKeyOf(env, out[i].memory))
  {
    hide Classified, ConflictKeyOf, RoutedByPolicy, ClassifiedAll, MatchOf;
    var out := ClassifiedAll(env, inv, cs);
    ClassifiedMeaning(env, inv, cs, i);
    if out[i].action.Routeable() {
      forall j | 0 <= j < i && !out[j].action.Replay?
        ensures ConflictKeyOf(env, out[j].memory) != ConflictKeyOf(env, out[i].memory)
      {
        var e := EarlierEntry(out[j]);
        assert SeenBefore(inv, out, i, e) && !SameSubject(env, out[i].memory, e);
        ConflictKeyIgnoresTags(env, out[j].memory);
      }
      forall e | e in inv.entries
        ensures !SameSubject(env, out[i].memory, e)
      {
        assert SeenBefore(inv, out, i, e);
      }
    }
  }

  /** Reserved proposal ids are new: outside the inventory's ids and pairwise distinct. */
  lemma ProposalIdsAreFresh(env: Env, inv: Inventory, cs: seq<Candidate>, i: nat)
    requires i < |cs|
    ensures var out := ClassifiedAll(env, inv, cs);
            out[i].action.CreateProposal? ==>
              && out[i].action.proposalId !in inv.reservedIds
              && forall j :: 0 <= j < i && out[j].action.CreateProposal? ==>
                   out[j].action.proposalId != out[i].action.proposalId
  {
    hide ReservedId, Matches, Sort, ClassifiedAll;
    var out := ClassifiedAll(env, inv, cs);
    ClassifiedAt(env, inv, cs, i);
    forall j | 0 <= j < i && out[j].action.CreateProposal?
      ensures out[j].action.proposalId in ProposalIdsOf(out[..i])
    {
      assert out[j] in out[..i];
    }
  }

  // ------------------------------------------------------------- fixpoint

  /** Classifying one classified candidate again in the same surroundings changes nothing, unless the
      missing runtime had downgraded it. */
  lemma ClassifiedTwice(env: Env, runtime: bool, entries: seq<InventoryEntry>, used: set<string>, c: Candidate)
    ensures var once := Classified(env, runtime, entries, used, c);
            Classified(env, runtime, entries, used, once) == once <==> !Downgraded(once)
  {
    hide ReservedId, Matches, Sort;
  }

  /** Classification is a fixpoint exactly when no candidate was downgraded for a missing runtime
      inventory, which is what the planner itself tests to emit its diagnostic. */
  lemma {:induction false} ClassificationFixpoint(env: Env, inv: Inventory, cs: seq<Candidate>)
    ensures var out := ClassifiedAll(env, inv, cs);
            ClassifiedAll(env, inv, out) == out <==> forall i :: 0 <= i < |out| ==> !Downgraded(out[i])
  {
    var out := ClassifiedAll(env, inv, cs);
    if cs != [] {
      var n := |cs| - 1;
      ClassificationFixpoint(env, inv, cs[..n]);
      var init := ClassifiedAll(env, inv, cs[..n]);
      assert out[..n] == init;
      var again := ClassifiedAll(env, inv, out);
      assert again[..n] == ClassifiedAll(env, inv, init);
      assert out == init + [out[n]] && again == again[..n] + [again[n]];
      if again[..n] == init {
        ClassifiedTwice(env, inv.runtimeAvailable, inv.entries + EarlierEntries(init),
                        inv.reservedIds + ProposalIdsOf(init), cs[n]);
      }
    }
  }

  /** Without the runtime inventory any candidate routed there, on an empty inventory, is no fixpoint: the
      second pass no longer knows why nothing was written. */
  lemma MissingRuntimeIsNoFixpoint(env: Env, c: Candidate)
    requires !c.action.Replay? && c.classification.policy.writeRoute in {RuntimeLocal, RuntimeSession}
    ensures var inv := Inventory([], {}, false);
            ClassifiedAll(env, inv, ClassifiedAll(env, inv, [c])) != ClassifiedAll(env, inv, [c])
  {
    hide ReservedId, Sort, ClassifiedAll;
    var inv := Inventory([], {}, false);
    NothingClassified(env, inv);
    ClassifiedAt(env, inv, [c], 0);
    assert inv.entries + EarlierEntries([]) == [];
    assert Downgraded(ClassifiedAll(env, inv, [c])[0]);
    ClassificationFixpoint(env, inv, [c]);
  }

  /** With the runtime inventory available nothing is ever downgraded, so the fixpoint always holds. */
  lemma FixpointWithRuntime(env: Env, inv: Inventory, cs: seq<Candidate>)
    requires inv.runtimeAvailable
    ensures ClassifiedAll(env, inv, ClassifiedAll(env, inv, cs)) == ClassifiedAll(env, inv, cs)
  {
    hide ReservedId, Matches, Sort, ClassifiedAll;
    var out := ClassifiedAll(env, inv, cs);
    forall i | 0 <= i < |out|
      ensures !Downgraded(out[i])
    {
      ClassifiedAt(env, inv, cs, i);
    }
    ClassificationFixpoint(env, inv, cs);
  }
}
