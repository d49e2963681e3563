/** The staged Secure Boot review of isopropyl/dbx.py: a bounded inventory that never loses incompleteness. */
module StagedDbx {
  import opened Wrappers
  import opened PeHeader
  import opened PeDigest

  const MAX_STAGED_DBX_CANDIDATES: nat := 64
  const MAX_DIAGNOSTIC: nat := 512

  // ----- results, with the checks their constructors make

  datatype DbxState = MatchedUnflagged | MatchedOptional | NotListedInSnapshot | Unknown

  datatype DbxAssessment = DbxAssessment(
    state: DbxState, architecture: Option<Architecture>, sha256: string, error: string)
  {
    predicate Valid() {
      && (sha256 == "" || IsDigest(sha256))
      && |error| <= MAX_DIAGNOSTIC && OneLine(error)
      && if state.Unknown? then error != "" else architecture.Some? && sha256 != "" && error == ""
    }
  }

  datatype StagedDbxPayload = StagedDbxPayload(path: string, dbx: DbxAssessment)

  datatype StagedDbxAnalysis = StagedDbxAnalysis(
    payloads: seq<StagedDbxPayload>, candidateCount: int, selectedCount: int, complete: bool, issues: seq<string>)
  {
    /** `__post_init__`, with the payloads already constructed. */
    predicate Valid() {
      && 0 <= selectedCount <= candidateCount
      && |payloads| == selectedCount
      && (forall issue :: issue in issues ==> issue != "" && OneLine(issue))
      && (complete ==>
            selectedCount == candidateCount && issues == [] && forall p :: p in payloads ==> !p.dbx.state.Unknown?)
      && (!complete ==> issues != [])
    }
  }

  predicate OneLine(s: string) {
    '\r' !in s && '\n' !in s
  }

  predicate IsDigest(s: string) {
    |s| == 64 && forall i :: 0 <= i < 64 ==> '0' <= s[i] <= '9' || 'a' <= s[i] <= 'f'
  }

  // ----- merging

  function Payloads(analyses: seq<StagedDbxAnalysis>): seq<StagedDbxPayload> {
    if analyses == [] then [] else analyses[0].payloads + Payloads(analyses[1..])
  }

  function Issues(analyses: seq<StagedDbxAnalysis>): seq<string> {
    if analyses == [] then [] else analyses[0].issues + Issues(analyses[1..])
  }

  function Candidates(analyses: seq<StagedDbxAnalysis>): int {
    if analyses == [] then 0 else analyses[0].candidateCount + Candidates(analyses[1..])
  }

  function Selected(analyses: seq<StagedDbxAnalysis>): int {
    if analyses == [] then 0 else analyses[0].selectedCount + Selected(analyses[1..])
  }

  predicate AllComplete(analyses: seq<StagedDbxAnalysis>) {
    forall a :: a in analyses ==> a.complete
  }

  predicate AllValid(analyses: seq<StagedDbxAnalysis>) {
    forall a :: a in analyses ==> a.Valid()
  }

  function Combined(analyses: seq<StagedDbxAnalysis>): StagedDbxAnalysis {
    StagedDbxAnalysis(Payloads(analyses), Candidates(analyses), Selected(analyses), AllComplete(analyses),
                      Issues(analyses))
  }

  /** `merge_staged_dbx_analyses`; None is the constructor's or the argument check's ValueError. */
  function Merge(analyses: seq<StagedDbxAnalysis>): Option<StagedDbxAnalysis> {
    if analyses == [] || !Combined(analyses).Valid() then None else Some(Combined(analyses))
  }

  lemma CombinedOne(a: StagedDbxAnalysis)
    ensures Combined([a]) == a
  {
    assert [a][1..] == [];
    assert Payloads([a]) == a.payloads + Payloads([]) == a.payloads;
    assert Issues([a]) == a.issues + Issues([]) == a.issues;
    assert Candidates([a]) == a.candidateCount && Selected([a]) == a.selectedCount;
    assert a in [a];
  }

  lemma {:induction false} CombinedValid(analyses: seq<StagedDbxAnalysis>)
    requires AllValid(analyses) && analyses != []
    ensures Combined(analyses).Valid()
  {
    var first, rest := analyses[0], analyses[1..];
    assert first.Valid();
    if rest == [] {
      assert analyses == [first];
      CombinedOne(first);
    } else {
      assert AllValid(rest);
      CombinedValid(rest);
      assert AllComplete(analyses) <==> first.complete && AllComplete(rest);
    }
  }

  lemma {:induction false} CombinedAppend(xs: seq<StagedDbxAnalysis>, ys: seq<StagedDbxAnalysis>)
    ensures Payloads(xs + ys) == Payloads(xs) + Payloads(ys)
    ensures Issues(xs + ys) == Issues(xs) + Issues(ys)
    ensures Candidates(xs + ys) == Candidates(xs) + Candidates(ys)
    ensures Selected(xs + ys) == Selected(xs) + Selected(ys)
    ensures AllComplete(xs + ys) <==> AllComplete(xs) && AllComplete(ys)
  {
    if xs == [] {
      assert xs + ys == ys;
    } else {
      CombinedAppend(xs[1..], ys);
      assert (xs + ys)[1..] == xs[1..] + ys;
      assert xs + ys == [xs[0]] + (xs[1..] + ys);
      assert xs == [xs[0]] + xs[1..];
    }
  }

  /** Valid analyses always merge, and the merge is complete exactly when each of them is. */
  lemma MergeIsValid(analyses: seq<StagedDbxAnalysis>)
    requires AllValid(analyses)
    ensures Merge(analyses).Some? <==> analyses != []
    ensures Merge(analyses).Some? ==>
      && Merge(analyses).value.Valid()
      && (Merge(analyses).value.complete <==> forall a :: a in analyses ==> a.complete)
  {
    if analyses != [] {
      CombinedValid(analyses);
    }
  }

  /** Merging groups first and then merging the results is merging everything at once. */
  lemma MergeIsAssociative(xs: seq<StagedDbxAnalysis>, ys: seq<StagedDbxAnalysis>)
    requires AllValid(xs) && AllValid(ys) && xs != [] && ys != []
    ensures Merge(xs).Some? && Merge(ys).Some?
    ensures Merge([Merge(xs).value, Merge(ys).value]) == Merge(xs + ys)
  {
    hide Payloads, Issues, Candidates, Selected, AllComplete, StagedDbxAnalysis.Valid;
    MergeIsValid(xs);
    MergeIsValid(ys);
    MergeIsValid(xs + ys);
    var x, y := Combined(xs), Combined(ys);
    MergeIsValid([x, y]);
    CombinedOne(x);
    CombinedOne(y);
    CombinedAppend(xs, ys);
    CombinedAppend([x], [y]);
    assert [x] + [y] == [x, y];
  }

  // ----- ranking

  predicate TextLess(a: string, b: string) {
    if b == "" then false
    else if a == "" then true
    else if a[0] != b[0] then a[0] < b[0]
    else TextLess(a[1..], b[1..])
  }

  predicate KeyLess(a: seq<string>, b: seq<string>) {
    if b == [] then false
    else if a == [] then true
    else if a[0] != b[0] then TextLess(a[0], b[0])
    else KeyLess(a[1..], b[1..])
  }

  lemma {:induction false} TextOrder(a: string, b: string)
    ensures a != b ==> TextLess(a, b) != TextLess(b, a)
    ensures a == b ==> !TextLess(a, b)
  {
    if a != "" && b != "" && a[0] == b[0] {
      TextOrder(a[1..], b[1..]);
      assert a == [a[0]] + a[1..] && b == [b[0]] + b[1..];
    }
  }

  lemma {:induction false} TextTransitive(a: string, b: string, c: string)
    requires TextLess(a, b) && TextLess(b, c)
    ensures TextLess(a, c)
  {
    if a != "" && a[0] == b[0] == c[0] {
      TextTransitive(a[1..], b[1..], c[1..]);
    }
  }

  lemma {:induction false} KeyOrder(a: seq<string>, b: seq<string>)
    ensures a != b ==> KeyLess(a, b) != KeyLess(b, a)
    ensures a == b ==> !KeyLess(a, b)
  {
    if a != [] && b != [] {
      TextOrder(a[0], b[0]);
      if a[0] == b[0] {
        KeyOrder(a[1..], b[1..]);
        assert a == [a[0]] + a[1..] && b == [b[0]] + b[1..];
      }
    }
  }

  lemma {:induction false} KeyTransitive(a: seq<string>, b: seq<string>, c: seq<string>)
    requires KeyLess(a, b) && KeyLess(b, c)
    ensures KeyLess(a, c)
  {
    if a != [] {
      if a[0] == b[0] == c[0] {
        KeyTransitive(a[1..], b[1..], c[1..]);
      } else if a[0] != b[0] && b[0] != c[0] {
        TextTransitive(a[0], b[0], c[0]);
        TextOrder(a[0], b[0]);
      }
    }
  }

  /** What reading and assessing one staged file comes to; the messages are bounded and on one line. */
  datatype Inspection =
    | ReadFailed(message: Diagnostic)
    | NotUefi
    | Inconclusive(message: Diagnostic)
    | Conclusive(verdict: Verdict)

  type Diagnostic = s: string | 0 < |s| <= MAX_DIAGNOSTIC && OneLine(s) witness "?"

  type Verdict = a: DbxAssessment | a.Valid() && !a.state.Unknown?
    witness DbxAssessment(NotListedInSnapshot, Some(X64), seq(64, _ => '0'), "")

  datatype StagedFile = StagedFile(path: string, parts: seq<string>, inspection: Inspection)

  datatype Candidate = Candidate(priority: nat, key: seq<string>, file: StagedFile)

  predicate RanksBefore(a: Candidate, b: Candidate) {
    a.priority < b.priority || (a.priority == b.priority && KeyLess(a.key, b.key))
  }

  lemma RankOrder(a: Candidate, b: Candidate, c: Candidate)
    ensures !(RanksBefore(a, b) && RanksBefore(b, a))
    ensures !RanksBefore(b, a) && !RanksBefore(c, b) ==> !RanksBefore(c, a)
  {
    KeyOrder(a.key, b.key);
    KeyOrder(b.key, c.key);
    KeyOrder(a.key, c.key);
    if KeyLess(a.key, b.key) && KeyLess(b.key, c.key) {
      KeyTransitive(a.key, b.key, c.key);
    }
  }

  predicate Ranked(s: seq<Candidate>) {
    forall i, j :: 0 <= i < j < |s| ==> !RanksBefore(s[j], s[i])
  }

  /** Stable insertion: an equal key stays behind the ones already there. */
  function InsertRanked(s: seq<Candidate>, x: Candidate): (r: seq<Candidate>)
    requires Ranked(s)
    ensures multiset(r) == multiset(s) + multiset{x}
  {
    if s == [] then [x]
    else
      assert s == s[..|s| - 1] + [s[|s| - 1]];
      if !RanksBefore(x, s[|s| - 1]) then s + [x]
      else InsertRanked(s[..|s| - 1], x) + [s[|s| - 1]]
  }

  lemma {:induction false} InsertKeepsRank(s: seq<Candidate>, x: Candidate)
    requires Ranked(s)
    ensures Ranked(InsertRanked(s, x))
  {
    if s != [] {
      var front, last := s[..|s| - 1], s[|s| - 1];
      if RanksBefore(x, last) {
        InsertKeepsRank(front, x);
        var r := InsertRanked(front, x);
        forall i | 0 <= i < |r| ensures !RanksBefore(last, r[i]) {
          assert r[i] in multiset(r);
          RankOrder(x, last, last);
        }
      } else {
        forall i | 0 <= i < |s| ensures !RanksBefore(x, s[i]) {
          RankOrder(s[i], last, x);
        }
      }
    }
  }

  /** What `candidates.sort` leaves. */
  function Rank(s: seq<Candidate>): (r: seq<Candidate>)
    ensures Ranked(r) && multiset(r) == multiset(s)
  {
    if s == [] then []
    else
      assert s == s[..|s| - 1] + [s[|s| - 1]];
      InsertKeepsRank(Rank(s[..|s| - 1]), s[|s| - 1]);
      InsertRanked(Rank(s[..|s| - 1]), s[|s| - 1])
  }

  // ----- the review

  predicate EndsWith(s: string, suffix: string) {
    |s| >= |suffix| && s[|s| - |suffix|..] == suffix
  }

  predicate StartsWith(s: string, prefix: string) {
    |s| >= |prefix| && s[..|prefix|] == prefix
  }

  function Each(f: string -> string, parts: seq<string>): seq<string> {
    seq(|parts|, i requires 0 <= i < |parts| => f(parts[i]))
  }

  predicate IsEfi(fold: string -> string, file: StagedFile) {
    file.parts != [] && EndsWith(fold(file.parts[|file.parts| - 1]), ".efi")
  }

  function CandidateFor(fold: string -> string, normalize: string -> string, file: StagedFile): Candidate
    requires IsEfi(fold, file)
  {
    var lowered := Each(fold, file.parts);
    var name := lowered[|lowered| - 1];
    var priority :=
      if |lowered| == 3 && lowered[..2] == ["efi", "boot"] && StartsWith(name, "boot") then 0
      else if name in {"bootmgfw.efi", "cdboot.efi", "cdboot_noprompt.efi"} then 1
      else 2;
    Candidate(priority, Each(fold, Each(normalize, file.parts)), file)
  }

  /** Every final `.efi` file, wherever it is. */
  function CandidatesOf(fold: string -> string, normalize: string -> string, files: seq<StagedFile>): seq<Candidate> {
    if files == [] then []
    else
      var last := files[|files| - 1];
      CandidatesOf(fold, normalize, files[..|files| - 1])
      + if IsEfi(fold, last) then [CandidateFor(fold, normalize, last)] else []
  }

  function Shortlist(ranked: seq<Candidate>): seq<Candidate> {
    if |ranked| <= MAX_STAGED_DBX_CANDIDATES then ranked else ranked[..MAX_STAGED_DBX_CANDIDATES]
  }

  predicate Settled(i: Inspection) {
    i.NotUefi? || i.Conclusive?
  }

  function PayloadOf(file: StagedFile): StagedDbxPayload
    requires !file.inspection.NotUefi?
  {
    StagedDbxPayload(file.path,
      if file.inspection.Conclusive? then file.inspection.verdict
      else DbxAssessment(Unknown, None, "", file.inspection.message))
  }

  function PayloadsOf(selected: seq<Candidate>): seq<StagedDbxPayload> {
    if selected == [] then []
    else
      var last := selected[|selected| - 1].file;
      PayloadsOf(selected[..|selected| - 1]) + if last.inspection.NotUefi? then [] else [PayloadOf(last)]
  }

  function IssueOf(file: StagedFile): string
    requires !Settled(file.inspection)
  {
    file.path + ": " + file.inspection.message
  }

  function IssuesOf(selected: seq<Candidate>): seq<string> {
    if selected == [] then []
    else
      var last := selected[|selected| - 1].file;
      IssuesOf(selected[..|selected| - 1]) + if Settled(last.inspection) then [] else [IssueOf(last)]
  }

  function Decimal(n: nat): (s: string)
    ensures s != "" && OneLine(s)
  {
    if n < 10 then [('0' as int + n) as char] else Decimal(n / 10) + Decimal(n % 10)
  }

  function TruncationNote(selected: nat, candidates: nat): (s: string)
    ensures s != "" && OneLine(s)
  {
    "selected " + Decimal(selected) + " of " + Decimal(candidates) + " staged EFI candidates"
  }

  /** What keeps a selected file from being reported at all: the result types refuse its path. */
  predicate Unreportable(file: StagedFile) {
    !file.inspection.NotUefi? && (file.path == "" || (!Settled(file.inspection) && !OneLine(file.path)))
  }

  predicate Reportable(selected: seq<Candidate>) {
    forall c :: c in selected ==> !Unreportable(c.file)
  }

  predicate AllSettled(selected: seq<Candidate>) {
    forall c :: c in selected ==> Settled(c.file.inspection)
  }

  function Review(candidates: seq<Candidate>): (a: StagedDbxAnalysis)
    ensures |PayloadsOf(Shortlist(Rank(candidates)))| <= |Shortlist(Rank(candidates))| <= |candidates|
  {
    var selected := Shortlist(Rank(candidates));
    RankLength(candidates);
    PayloadCount(selected);
    var kept := |PayloadsOf(selected)|;
    var candidateCount := |candidates| - (|selected| - kept);
    StagedDbxAnalysis(
      PayloadsOf(selected), candidateCount, kept,
      |selected| == |candidates| && AllSettled(selected),
      IssuesOf(selected) + if |candidates| > |selected| then [TruncationNote(kept, candidateCount)] else [])
  }

  lemma RankLength(candidates: seq<Candidate>)
    ensures |Rank(candidates)| == |candidates|
  {
    assert |multiset(Rank(candidates))| == |multiset(candidates)|;
  }

  lemma {:induction false} PayloadCount(selected: seq<Candidate>)
    ensures |PayloadsOf(selected)| <= |selected|
  {
    if selected != [] {
      PayloadCount(selected[..|selected| - 1]);
    }
  }

  lemma {:induction false} PayloadsSettled(selected: seq<Candidate>)
    ensures (forall p :: p in PayloadsOf(selected) ==> !p.dbx.state.Unknown?) <==> AllSettled(selected)
    ensures IssuesOf(selected) == [] <==> AllSettled(selected)
  {
    if selected != [] {
      var front, last := selected[..|selected| - 1], selected[|selected| - 1];
      PayloadsSettled(front);
      assert selected == front + [last];
      assert AllSettled(selected) <==> AllSettled(front) && Settled(last.file.inspection);
      assert forall p :: p in PayloadsOf(front) ==> p in PayloadsOf(selected);
      if !last.file.inspection.NotUefi? {
        assert PayloadsOf(selected) == PayloadsOf(front) + [PayloadOf(last.file)];
        assert PayloadOf(last.file) in PayloadsOf(selected);
      }
    }
  }

  lemma {:induction false} IssuesPresentable(selected: seq<Candidate>)
    requires forall c :: c in selected && !Settled(c.file.inspection) ==> c.file.path != ""
    ensures (forall issue :: issue in IssuesOf(selected) ==> issue != "" && OneLine(issue))
      <==> forall c :: c in selected && !Settled(c.file.inspection) ==> OneLine(c.file.path)
  {
    if selected != [] {
      var front, last := selected[..|selected| - 1], selected[|selected| - 1];
      IssuesPresentable(front);
      assert selected == front + [last];
      assert forall issue :: issue in IssuesOf(front) ==> issue in IssuesOf(selected);
      if !Settled(last.file.inspection) {
        assert IssuesOf(selected) == IssuesOf(front) + [IssueOf(last.file)];
        assert IssueOf(last.file) in IssuesOf(selected);
        var path, rest := last.file.path, ": " + last.file.inspection.message;
        assert IssueOf(last.file) == path + rest;
        OneLineAppend(path, rest);
      }
    }
  }

  lemma OneLineAppend(a: string, b: string)
    ensures OneLine(a + b) <==> OneLine(a) && OneLine(b)
  {
  }

  /** The constructor accepts the review exactly when no selected file's path is refused. */
  lemma ReviewIsValid(candidates: seq<Candidate>)
    requires PathsNonEmpty(Shortlist(Rank(candidates)))
    ensures Review(candidates).Valid() <==> Reportable(Shortlist(Rank(candidates)))
  {
    hide PayloadsOf, IssuesOf, Rank, TruncationNote;
    var selected := Shortlist(Rank(candidates));
    RankLength(candidates);
    PayloadCount(selected);
    PayloadsSettled(selected);
    IssuesPresentable(selected);
    var r := Review(candidates);
    var note := [TruncationNote(|PayloadsOf(selected)|, r.candidateCount)];
    assert r.issues == IssuesOf(selected) || r.issues == IssuesOf(selected) + note;
    assert forall issue :: issue in IssuesOf(selected) ==> issue in r.issues;
    assert Reportable(selected) <==>
      forall c :: c in selected && !Settled(c.file.inspection) ==> OneLine(c.file.path);
  }

  datatype StageError = ReviewCancelled | InvalidValue

  method CollectCandidates(files: seq<StagedFile>, fold: string -> string, normalize: string -> string)
    returns (candidates: seq<Candidate>)
    ensures candidates == CandidatesOf(fold, normalize, files)
  {
    candidates := [];
    var i := 0;
    while i < |files|
      invariant 0 <= i <= |files|
      invariant candidates == CandidatesOf(fold, normalize, files[..i])
    {
      assert files[..i + 1][..i] == files[..i];
      if IsEfi(fold, files[i]) {
        candidates := candidates + [CandidateFor(fold, normalize, files[i])];
      }
      i := i + 1;
    }
    assert files[..i] == files;
  }

  predicate PathsNonEmpty(selected: seq<Candidate>) {
    forall c :: c in selected && !c.file.inspection.NotUefi? ==> c.file.path != ""
  }

  lemma NextSelected(selected: seq<Candidate>, i: nat)
    requires i < |selected|
    ensures
      var (next, before, file) := (selected[..i + 1], selected[..i], selected[i].file);
      && PayloadsOf(next) == PayloadsOf(before) + (if file.inspection.NotUefi? then [] else [PayloadOf(file)])
      && IssuesOf(next) == IssuesOf(before) + (if Settled(file.inspection) then [] else [IssueOf(file)])
      && (AllSettled(next) <==> AllSettled(before) && Settled(file.inspection))
      && (PathsNonEmpty(next) <==> PathsNonEmpty(before) && (file.inspection.NotUefi? || file.path != ""))
  {
    assert selected[..i + 1][..i] == selected[..i];
    assert selected[..i + 1] == selected[..i] + [selected[i]];
  }

  /** The loop over the shortlist. */
  method InspectSelected(selected: seq<Candidate>, cancel: CancelCheck?)
    returns (r: Result<(seq<StagedDbxPayload>, seq<string>, nat, bool), StageError>)
    ensures r == Failure(ReviewCancelled) ==> cancel != null
    ensures r != Failure(ReviewCancelled) ==> (r.Success? <==> PathsNonEmpty(selected))
    ensures r.Success? ==>
      r.value == (PayloadsOf(selected), IssuesOf(selected), |selected| - |PayloadsOf(selected)|, AllSettled(selected))
  {
    hide PayloadsOf, IssuesOf, AllSettled, PathsNonEmpty;
    var payloads, issues, excluded, settled := [], [], 0, true;
    var i := 0;
    EmptySelection(selected[..0]);
    while i < |selected|
      invariant 0 <= i <= |selected|
      invariant payloads == PayloadsOf(selected[..i]) && issues == IssuesOf(selected[..i])
      invariant excluded == i - |payloads|
      invariant settled == AllSettled(selected[..i])
      invariant PathsNonEmpty(selected[..i])
    {
      var raised := Poll(cancel);
      if raised {
        return Failure(ReviewCancelled);
      }
      var file := selected[i].file;
      NextSelected(selected, i);
      if file.inspection.NotUefi? {
        excluded := excluded + 1;
      } else {
        if file.path == "" {
          PathsNonEmptyPrefix(selected, i + 1);
          return Failure(InvalidValue);
        }
        payloads := payloads + [PayloadOf(file)];
        if !Settled(file.inspection) {
          issues := issues + [IssueOf(file)];
          settled := false;
        }
      }
      i := i + 1;
    }
    assert selected[..i] == selected;
    return Success((payloads, issues, excluded, settled));
  }

  lemma EmptySelection(none: seq<Candidate>)
    requires none == []
    ensures PayloadsOf(none) == [] && IssuesOf(none) == [] && AllSettled(none) && PathsNonEmpty(none)
  {
  }

  lemma PathsNonEmptyPrefix(selected: seq<Candidate>, k: nat)
    requires k <= |selected| && !PathsNonEmpty(selected[..k])
    ensures !PathsNonEmpty(selected)
  {
    var c :| c in selected[..k] && !c.file.inspection.NotUefi? && c.file.path == "";
    assert c in selected;
  }

  // ----- where the inventory comes from

  /** An entry below the staging root, as the scan finds it. */
  datatype TreeEntry =
    | RegularFile(name: string, inspection: Inspection)
    | Folder(name: string, children: seq<TreeEntry>)
    | Irregular(name: string)

  /** The parts of `validate_staged_component` that concern the characters of a name. */
  predicate AcceptedComponent(name: string) {
    && name != "" && name != "." && name != ".."
    && (forall i :: 0 <= i < |name| ==> name[i] as int >= 32 && name[i] as int != 127 && name[i] !in "<>:\"/\\|?*")
    && name[|name| - 1] != ' ' && name[|name| - 1] != '.'
  }

  /** `PurePosixPath(*parts).as_posix()` for accepted components. */
  function PathOf(parts: seq<string>): string {
    if parts == [] then ""
    else if |parts| == 1 then parts[0]
    else PathOf(parts[..|parts| - 1]) + "/" + parts[|parts| - 1]
  }

  /** `_scan_directory_fd`: the regular files below a directory, or a refusal. */
  function Scan(entries: seq<TreeEntry>, parts: seq<string>): Option<seq<StagedFile>>
    decreases entries
  {
    if entries == [] then Some([])
    else
      var entry := entries[0];
      if !AcceptedComponent(entry.name) then None
      else
        var here := parts + [entry.name];
        var found := match entry
          case RegularFile(_, inspection) => Some([StagedFile(PathOf(here), here, inspection)])
          case Folder(_, children) => Scan(children, here)
          case Irregular(_) => None;
        var rest := Scan(entries[1..], parts);
        if found.None? || rest.None? then None else Some(found.value + rest.value)
  }

  predicate AllAccepted(parts: seq<string>) {
    forall part :: part in parts ==> AcceptedComponent(part)
  }

  /** A path the result types can carry. */
  predicate Presentable(file: StagedFile) {
    file.path != "" && OneLine(file.path)
  }

  lemma {:induction false} AcceptedPathIsPresentable(parts: seq<string>)
    requires parts != [] && AllAccepted(parts)
    ensures PathOf(parts) != "" && OneLine(PathOf(parts))
  {
    var last := parts[|parts| - 1];
    assert last in parts && AcceptedComponent(last);
    assert OneLine(last);
    if |parts| > 1 {
      assert AllAccepted(parts[..|parts| - 1]);
      AcceptedPathIsPresentable(parts[..|parts| - 1]);
    }
  }

  lemma {:induction false} ScannedFilesArePresentable(entries: seq<TreeEntry>, parts: seq<string>)
    requires AllAccepted(parts) && Scan(entries, parts).Some?
    ensures forall f :: f in Scan(entries, parts).value ==>
      Presentable(f) && f.parts != [] && AllAccepted(f.parts) && f.path == PathOf(f.parts)
    decreases entries
  {
    if entries != [] {
      var entry := entries[0];
      var here := parts + [entry.name];
      AcceptedPathIsPresentable(here);
      if entry.Folder? {
        ScannedFilesArePresentable(entry.children, here);
      }
      ScannedFilesArePresentable(entries[1..], parts);
    }
  }

  /** Whatever tree was scanned, every reported path is one the result types accept. */
  lemma ScannedInventoryIsReportable(entries: seq<TreeEntry>, fold: string -> string, normalize: string -> string)
    requires Scan(entries, []).Some?
    ensures Reportable(Shortlist(Rank(CandidatesOf(fold, normalize, Scan(entries, []).value))))
  {
    ScannedFilesArePresentable(entries, []);
    PresentableIsReportable(fold, normalize, Scan(entries, []).value);
  }

  lemma PresentableIsReportable(fold: string -> string, normalize: string -> string, files: seq<StagedFile>)
    requires forall f :: f in files ==> Presentable(f)
    ensures Reportable(Shortlist(Rank(CandidatesOf(fold, normalize, files))))
  {
    hide CandidatesOf, Rank, CandidateFor, IsEfi;
    var candidates := CandidatesOf(fold, normalize, files);
    CandidateFiles(fold, normalize, files, candidates);
    SameMembers(Rank(candidates), candidates);
    forall c | c in Shortlist(Rank(candidates)) ensures !Unreportable(c.file) {
      assert c in Rank(candidates);
      assert c.file in files;
    }
  }

  /** The review of a scanned tree fails only by cancellation, and is valid. */
  method AssessScannedTree(
    entries: seq<TreeEntry>, fold: string -> string, normalize: string -> string, cancel: CancelCheck?)
    returns (r: Result<StagedDbxAnalysis, StageError>)
    requires Scan(entries, []).Some?
    ensures r.Failure? ==> r == Failure(ReviewCancelled) && cancel != null
    ensures r.Success? ==> r.value.Valid() && r.value == Review(CandidatesOf(fold, normalize, Scan(entries, []).value))
  {
    ScannedInventoryIsReportable(entries, fold, normalize);
    r := AssessStagedDbx(Scan(entries, []).value, fold, normalize, cancel);
  }

  /**
   `assess_staged_dbx`: builds the review in ranked order; fails only on cancellation or for a path that no scan
   yields.
   */
  method AssessStagedDbx(
    files: seq<StagedFile>, fold: string -> string, normalize: string -> string, cancel: CancelCheck?)
    returns (r: Result<StagedDbxAnalysis, StageError>)
    ensures r == Failure(ReviewCancelled) ==> cancel != null
    ensures r != Failure(ReviewCancelled) ==>
      var candidates := CandidatesOf(fold, normalize, files);
      && (r.Success? <==> Reportable(Shortlist(Rank(candidates))))
      && (r.Success? ==> r.value == Review(candidates) && r.value.Valid())
  {
    hide PayloadsOf, IssuesOf, AllSettled, Rank, CandidatesOf, StagedDbxAnalysis.Valid, TruncationNote;
    var candidates := CollectCandidates(files, fold, normalize);
    var selected := Shortlist(Rank(candidates));
    RankLength(candidates);
    PayloadCount(selected);
    var inspected := InspectSelected(selected, cancel);
    if inspected.Failure? {
      return Failure(inspected.error);
    }
    var (payloads, issues, excluded, settled) := inspected.value;
    var complete := |selected| == |candidates| && settled;
    var candidateCount := |candidates| - excluded;
    var selectedCount := |payloads|;
    if |candidates| > |selected| {
      issues := issues + [TruncationNote(selectedCount, candidateCount)];
    }
    var raised := Poll(cancel);
    if raised {
      return Failure(ReviewCancelled);
    }
    var analysis := StagedDbxAnalysis(payloads, candidateCount, selectedCount, complete, issues);
    ReviewIsValid(candidates);
    assert |candidates| <= |selected| ==> issues + [] == issues;
    if !analysis.Valid() {
      return Failure(InvalidValue);
    }
    return Success(analysis);
  }

  lemma {:induction false} CandidateFiles(
    fold: string -> string, normalize: string -> string, files: seq<StagedFile>, candidates: seq<Candidate>)
    requires candidates == CandidatesOf(fold, normalize, files)
    ensures forall c :: c in candidates ==> c.file in files && IsEfi(fold, c.file)
    ensures forall f :: f in files && IsEfi(fold, f) ==> CandidateFor(fold, normalize, f) in candidates
  {
    if files != [] {
      var front, last := files[..|files| - 1], files[|files| - 1];
      assert files == front + [last];
      CandidateFiles(fold, normalize, front, CandidatesOf(fold, normalize, front));
    }
  }

  /** Completeness is never claimed for less than the whole inventory, and always for a settled one that fits. */
  lemma CompleteMeansEveryFileSettled(fold: string -> string, normalize: string -> string, files: seq<StagedFile>)
    ensures
      var candidates := CandidatesOf(fold, normalize, files);
      Review(candidates).complete <==>
        && |candidates| <= MAX_STAGED_DBX_CANDIDATES
        && forall f :: f in files && IsEfi(fold, f) ==> Settled(f.inspection)
  {
    hide PayloadsOf, IssuesOf, Rank, CandidatesOf, TruncationNote, CandidateFor, IsEfi;
    var candidates := CandidatesOf(fold, normalize, files);
    var ranked := Rank(candidates);
    RankLength(candidates);
    CandidateFiles(fold, normalize, files, candidates);
    SameMembers(ranked, candidates);
    if |candidates| <= MAX_STAGED_DBX_CANDIDATES && AllSettled(ranked) {
      forall f | f in files && IsEfi(fold, f) ensures Settled(f.inspection) {
        assert CandidateFor(fold, normalize, f) in ranked;
        CandidateKeepsFile(fold, normalize, f);
      }
    }
  }

  lemma CandidateKeepsFile(fold: string -> string, normalize: string -> string, f: StagedFile)
    requires IsEfi(fold, f)
    ensures CandidateFor(fold, normalize, f).file == f
  {
  }

  lemma SameMembers<T>(a: seq<T>, b: seq<T>)
    requires multiset(a) == multiset(b)
    ensures forall x :: x in a <==> x in b
  {
    forall x ensures x in a <==> x in b {
      assert x in a <==> x in multiset(a);
      assert x in b <==> x in multiset(b);
    }
  }

  /** The shortlist is a sub-collection of the inventory, and nothing left out ranks before anything kept. */
  lemma ShortlistKeepsTheLowest(candidates: seq<Candidate>)
    ensures multiset(Rank(candidates)) == multiset(candidates)
    ensures |Shortlist(Rank(candidates))| == if |candidates| <= 64 then |candidates| else 64
    ensures
      var (ranked, shortlist) := (Rank(candidates), Shortlist(Rank(candidates)));
      && shortlist <= ranked
      && forall i, j :: 0 <= i < |shortlist| <= j < |ranked| ==> !RanksBefore(ranked[j], shortlist[i])
  {
    hide Rank, RanksBefore;
    RankLength(candidates);
  }
}
