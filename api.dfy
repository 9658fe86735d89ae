/**
 * The mocked backend store of the requirements tracker: an ordered table of
 * requirements with its id counter, and an append-only version history per
 * requirement id with its own counter. Every operation is one atomic
 * callback behind the unreliable channel: `networkOk` is the outcome of the
 * channel's failure trial (on `false` nothing runs and nothing changes),
 * `drift` the outcome of the status-drift trial, and timestamps are passed
 * in as opaque strings.
 */
module Api {
  import opened Wrappers
  import opened Channel
  import Decimal
  import JsString

  /** A stored requirement; `status` is an open string and may be `undefined`. */
  datatype Requirement = Requirement(id: string, title: string, description: string, status: Option<string>)

  /** A committed snapshot of a requirement's title and description. */
  datatype Version = Version(id: string, requirementId: string, title: string, description: string, timestamp: string)

  /** The fields a caller passes to create, update or autosave; `None` is an absent key. */
  datatype Patch = Patch(title: Option<string>, description: Option<string>, status: Option<string>)

  /** The generated Given/When/Then scaffold for one requirement. */
  datatype AcceptanceCriteria = AcceptanceCriteria(requirementId: string, criteria: seq<string>, generatedAt: string)

  type History = map<string, seq<Version>>

  const DefaultTitle: string := "Untitled Requirement"
  const DefaultStatus: string := "Draft"
  const SeedNextId: nat := 5
  const SeedNextVersionId: nat := 1

  /** The four rows written on first run, with their deliberately mixed status spellings. */
  const SeedAuthentication := Requirement("1", "User Authentication",
    "Implement secure user authentication with OAuth 2.0 support", Some("Completed"))
  const SeedAnalytics := Requirement("2", "Dashboard Analytics",
    "Create a dashboard with real-time analytics and charts", Some("in_progress"))
  const SeedExport := Requirement("3", "Export to PDF",
    "Allow users to export reports as PDF documents", Some("draft"))
  const SeedNotifications := Requirement("4", "Email Notifications",
    "Send automated email notifications for important events", Some("Draft"))

  function SeedRequirements(): (s: seq<Requirement>)
    ensures |s| == 4
    ensures forall i :: 0 <= i < |s| ==> s[i].title != "" && s[i].status.Some?
  {
    [SeedAuthentication, SeedAnalytics, SeedExport, SeedNotifications]
  }

  /** Every seeded status is a nominal status or the drift of one. */
  lemma SeedStatusesAreNominalOrDrifted()
    ensures |SeedRequirements()| == 4
    ensures SeedRequirements()[0].status == Some("Completed")
    ensures SeedRequirements()[1].status == Some(JsString.Drift("In Progress"))
    ensures SeedRequirements()[2].status == Some(JsString.Drift("Draft"))
    ensures SeedRequirements()[3].status == Some("Draft")
  {
    JsString.DriftOfInProgress();
    JsString.DriftOfDraft();
  }

  // ----- Lookup -----

  predicate Stores(reqs: seq<Requirement>, id: string) {
    exists i :: 0 <= i < |reqs| && reqs[i].id == id
  }

  /** `findIndex((r) => r.id === id)`: the first position holding `id`, or -1. */
  function FindIndex(reqs: seq<Requirement>, id: string): (k: int)
    ensures -1 <= k < |reqs|
    ensures k == -1 <==> !Stores(reqs, id)
    ensures k >= 0 ==> reqs[k].id == id && forall i :: 0 <= i < k ==> reqs[i].id != id
  {
    if reqs == [] then -1
    else if reqs[0].id == id then 0
    else
      var k := FindIndex(reqs[1..], id);
      assert forall i :: 1 <= i < |reqs| ==> reqs[i] == reqs[1..][i - 1];
      if k == -1 then -1 else k + 1
  }

  /** `versionHistory[requirementId] || []`: a list never committed to reads as empty. */
  function HistoryOf(h: History, requirementId: string): (versions: seq<Version>)
    ensures requirementId in h ==> versions == h[requirementId]
    ensures requirementId !in h ==> versions == []
  {
    if requirementId in h then h[requirementId] else []
  }

  // ----- The merges the write paths perform -----

  /** JavaScript `v || fallback` on an optional string: absent and empty both fall back. */
  function OrElse(v: Option<string>, fallback: string): (r: string)
    ensures r == fallback || (v == Some(r) && r != "")
    ensures r == "" ==> fallback == ""
    ensures v.Some? && v.value != "" ==> r == v.value
  {
    if v.Some? && v.value != "" then v.value else fallback
  }

  /**
   * The record `createRequirement` stores under a freshly allocated `id`:
   * an absent or empty title becomes "Untitled Requirement", description ""
   * and status "Draft"; the stored status is the resolved one or its drift,
   * and is never undefined.
   */
  function NewRequirement(id: string, data: Patch, drift: bool): (r: Requirement)
    ensures r.id == id
    ensures r.title != ""
    ensures data.title.Some? && data.title.value != "" ==> r.title == data.title.value
    ensures data.title.None? || data.title.value == "" ==> r.title == DefaultTitle
    ensures data.description.None? ==> r.description == ""
    ensures data.description.Some? ==> r.description == data.description.value
    ensures var resolved := if data.status.Some? && data.status.value != "" then data.status.value else DefaultStatus;
      r.status == Some(resolved) || r.status == Some(JsString.Drift(resolved))
    ensures !drift ==> r.status == Some(OrElse(data.status, DefaultStatus))
  {
    var status := OrElse(data.status, DefaultStatus);
    Requirement(id, OrElse(data.title, DefaultTitle), OrElse(data.description, ""),
      Some(if drift then JsString.Drift(status) else status))
  }

  /**
   * The status `updateRequirement` stores: the given one or its drift, and
   * nothing else; an absent status stays absent, an empty one stays empty.
   */
  function UpdatedStatus(status: Option<string>, drift: bool): (r: Option<string>)
    ensures r.None? <==> status.None?
    ensures status.Some? ==> r == status || r == Some(JsString.Drift(status.value))
    ensures status == Some("") ==> r == Some("")
    ensures !drift ==> r == status
  {
    if status.Some? && status.value != "" && drift then Some(JsString.Drift(status.value)) else status
  }

  /**
   * `{...current, ...data, status: updatedStatus}`: the id and every omitted
   * title or description are kept, but an omitted status is not: it becomes
   * undefined.
   */
  function MergeUpdate(current: Requirement, data: Patch, drift: bool): (r: Requirement)
    ensures r.id == current.id
    ensures data.title.None? ==> r.title == current.title
    ensures data.title.Some? ==> r.title == data.title.value
    ensures data.description.None? ==> r.description == current.description
    ensures data.description.Some? ==> r.description == data.description.value
    ensures data.status.None? ==> r.status.None?
    ensures data.status.Some? ==> r.status.Some?
    ensures r.status == UpdatedStatus(data.status, drift)
  {
    Requirement(current.id, data.title.GetOr(current.title), data.description.GetOr(current.description),
      UpdatedStatus(data.status, drift))
  }

  /** `{...current, ...data}`: a plain shallow merge; every omitted field is kept. */
  function MergeAutoSave(current: Requirement, data: Patch): (r: Requirement)
    ensures r.id == current.id
    ensures data.title.None? ==> r.title == current.title
    ensures data.title.Some? ==> r.title == data.title.value
    ensures data.description.None? ==> r.description == current.description
    ensures data.description.Some? ==> r.description == data.description.value
    ensures data.status.None? ==> r.status == current.status
    ensures data.status.Some? ==> r.status == data.status
  {
    Requirement(current.id, data.title.GetOr(current.title), data.description.GetOr(current.description),
      if data.status.Some? then data.status else current.status)
  }

  /** `{...current, title: version.title, description: version.description}`. */
  function MergeRestore(current: Requirement, version: Version): (r: Requirement)
    ensures r.id == current.id && r.status == current.status
    ensures r.title == version.title && r.description == version.description
  {
    current.(title := version.title, description := version.description)
  }

  /**
   * Autosave and update agree exactly when the patch carries a status and the
   * update's drift does not fire; with the status omitted autosave keeps the
   * stored one while update clears it.
   */
  lemma AutoSaveAgreesWithUndriftedUpdate(current: Requirement, data: Patch)
    ensures data.status.Some? ==> MergeAutoSave(current, data) == MergeUpdate(current, data, false)
    ensures data.status.None? ==> MergeAutoSave(current, data).status == current.status
    ensures data.status.None? && current.status.Some? ==>
      MergeAutoSave(current, data) != MergeUpdate(current, data, false)
  {
  }

  /** Restore is the autosave of a patch carrying only the version's title and description. */
  lemma RestoreIsAutoSaveOfTitleAndDescription(current: Requirement, version: Version)
    ensures MergeRestore(current, version)
      == MergeAutoSave(current, Patch(Some(version.title), Some(version.description), None))
    ensures MergeRestore(current, version).id == current.id
    ensures MergeRestore(current, version).status == current.status
  {
  }

  // ----- Acceptance criteria -----

  predicate StartsWith(line: string, prefix: string) {
    |prefix| <= |line| && line[..|prefix|] == prefix
  }

  /** `title` stands in `line` right after its first `at` characters. */
  predicate MentionsAt(line: string, title: string, at: nat) {
    at + |title| <= |line| && line[at..at + |title|] == title
  }

  const Given: string := "Given "
  const When: string := "When "
  const Then: string := "Then "
  const And: string := "And "

  /** The eight-line Given/When/Then/And template for a requirement with this title. */
  function CriteriaLines(title: string): (lines: seq<string>)
    ensures |lines| == 8
  {
    [ Given + "a user is on the " + title + " feature",
      When + "the user interacts with the " + title + " functionality",
      Then + "the system should respond within 2 seconds",
      And + "the user should see a confirmation message",
      Given + "the " + title + " is configured correctly",
      When + "an error occurs during " + title,
      Then + "the system should display a user-friendly error message",
      And + "log the error for debugging purposes" ]
  }

  lemma PrefixStarts(prefix: string, rest: string)
    ensures StartsWith(prefix + rest, prefix)
  {
    assert (prefix + rest)[..|prefix|] == prefix;
  }

  lemma InfixMentioned(before: string, title: string, after: string)
    ensures MentionsAt(before + title + after, title, |before|)
  {
    assert (before + title + after)[|before|..|before| + |title|] == title;
  }

  /** The criteria run Given, When, Then, And, twice over. */
  lemma CriteriaFollowScaffold(title: string)
    ensures StartsWith(CriteriaLines(title)[0], Given) && StartsWith(CriteriaLines(title)[4], Given)
    ensures StartsWith(CriteriaLines(title)[1], When) && StartsWith(CriteriaLines(title)[5], When)
    ensures StartsWith(CriteriaLines(title)[2], Then) && StartsWith(CriteriaLines(title)[6], Then)
    ensures StartsWith(CriteriaLines(title)[3], And) && StartsWith(CriteriaLines(title)[7], And)
  {
    PrefixStarts(Given, "a user is on the " + title + " feature");
    PrefixStarts(When, "the user interacts with the " + title + " functionality");
    PrefixStarts(Then, "the system should respond within 2 seconds");
    PrefixStarts(And, "the user should see a confirmation message");
    PrefixStarts(Given, "the " + title + " is configured correctly");
    PrefixStarts(When, "an error occurs during " + title);
    PrefixStarts(Then, "the system should display a user-friendly error message");
    PrefixStarts(And, "log the error for debugging purposes");
  }

  /** The title is substituted into both Given lines and both When lines. */
  lemma CriteriaMentionTitle(title: string)
    ensures MentionsAt(CriteriaLines(title)[0], title, |Given + "a user is on the "|)
    ensures MentionsAt(CriteriaLines(title)[1], title, |When + "the user interacts with the "|)
    ensures MentionsAt(CriteriaLines(title)[4], title, |Given + "the "|)
    ensures MentionsAt(CriteriaLines(title)[5], title, |When + "an error occurs during "|)
  {
    InfixMentioned(Given + "a user is on the ", title, " feature");
    InfixMentioned(When + "the user interacts with the ", title, " functionality");
    InfixMentioned(Given + "the ", title, " is configured correctly");
    InfixMentioned(When + "an error occurs during ", title, "");
    assert When + "an error occurs during " + title + "" == When + "an error occurs during " + title;
  }

  /**
   * The criteria depend on the title alone, and determine it: two titles get
   * the same fixed Then/And lines, and different titles different Given lines.
   */
  lemma CriteriaDetermineTitle(t1: string, t2: string)
    ensures CriteriaLines(t1)[2] == CriteriaLines(t2)[2] && CriteriaLines(t1)[3] == CriteriaLines(t2)[3]
    ensures CriteriaLines(t1)[6] == CriteriaLines(t2)[6] && CriteriaLines(t1)[7] == CriteriaLines(t2)[7]
    ensures CriteriaLines(t1)[0] == CriteriaLines(t2)[0] ==> t1 == t2
  {
    CriteriaMentionTitle(t1);
    CriteriaMentionTitle(t2);
  }

  // ----- Id invariants -----

  /**
   * `id` is `String(n)` for some counter value `n` below `counter`: a digit
   * string in canonical form (non-empty, no leading zero) whose value is `n`.
   */
  predicate IssuedBelow(id: string, counter: nat) {
    Decimal.IsDigits(id) && id == Decimal.Show(Decimal.Parse(id)) && Decimal.Parse(id) < counter
  }

  /** Issued ids are exactly the numerals `String(n)` of the counter values `n` handed out so far. */
  lemma IssuedBelowIsShownCounter(id: string, counter: nat)
    ensures IssuedBelow(id, counter) <==> exists n: nat :: n < counter && id == Decimal.Show(n)
  {
    if IssuedBelow(id, counter) {
      var n := Decimal.Parse(id);
      assert n < counter && id == Decimal.Show(n);
    }
    if exists n: nat :: n < counter && id == Decimal.Show(n) {
      var n: nat :| n < counter && id == Decimal.Show(n);
      Decimal.ParseShow(n);
    }
  }

  /**
   * Requirement ids are numerals of values already handed out by the id
   * counter, strictly increasing along the table (so pairwise distinct).
   */
  ghost predicate RequirementsNumbered(reqs: seq<Requirement>, nextId: nat) {
    && (forall i :: 0 <= i < |reqs| ==> IssuedBelow(reqs[i].id, nextId))
    && (forall i, j :: 0 <= i < j < |reqs| ==> Decimal.Parse(reqs[i].id) < Decimal.Parse(reqs[j].id))
  }

  /**
   * Each requirement's versions name that requirement, carry numerals of
   * values already handed out by the version counter, and increase in append
   * order, so the last one is the latest.
   */
  ghost predicate VersionsNumbered(requirementId: string, versions: seq<Version>, nextVersionId: nat) {
    && (forall k :: 0 <= k < |versions| ==>
          versions[k].requirementId == requirementId && IssuedBelow(versions[k].id, nextVersionId))
    && (forall k, l :: 0 <= k < l < |versions| ==> Decimal.Parse(versions[k].id) < Decimal.Parse(versions[l].id))
  }

  ghost predicate HistoryNumbered(h: History, nextVersionId: nat) {
    forall rid :: rid in h ==> VersionsNumbered(rid, h[rid], nextVersionId)
  }

  /** Numbered requirement ids are pairwise distinct, so a lookup finds the only match. */
  lemma NumberedIdsAreUnique(reqs: seq<Requirement>, nextId: nat, id: string)
    requires RequirementsNumbered(reqs, nextId)
    ensures forall i, j :: 0 <= i < j < |reqs| ==> reqs[i].id != reqs[j].id
    ensures forall i :: 0 <= i < |reqs| && reqs[i].id == id ==> i == FindIndex(reqs, id)
  {
  }

  /** The seed table is numbered below the seeded counter. */
  lemma SeedIsNumbered()
    ensures RequirementsNumbered(SeedRequirements(), SeedNextId)
  {
    var s := SeedRequirements();
    Decimal.ParseDigit(1);
    Decimal.ParseDigit(2);
    Decimal.ParseDigit(3);
    Decimal.ParseDigit(4);
    assert s[0].id == [Decimal.DigitChar(1)] && s[1].id == [Decimal.DigitChar(2)];
    assert s[2].id == [Decimal.DigitChar(3)] && s[3].id == [Decimal.DigitChar(4)];
    assert forall i :: 0 <= i < |s| ==> Decimal.IsDigits(s[i].id) && Decimal.Parse(s[i].id) == i + 1;
  }

  /**
   * The id `String(nextId)` is not yet in a numbered table, and appending a
   * record under it keeps the table numbered once the counter moves on.
   */
  lemma AppendFreshId(reqs: seq<Requirement>, nextId: nat, record: Requirement)
    requires RequirementsNumbered(reqs, nextId)
    requires record.id == Decimal.Show(nextId)
    ensures forall i :: 0 <= i < |reqs| ==> reqs[i].id != record.id
    ensures RequirementsNumbered(reqs + [record], nextId + 1)
  {
    Decimal.ParseShow(nextId);
    var t := reqs + [record];
    assert forall i :: 0 <= i < |reqs| ==> t[i] == reqs[i];
  }

  /** Replacing a record by one with the same id keeps the table numbered. */
  lemma ReplaceKeepsNumbering(reqs: seq<Requirement>, nextId: nat, k: nat, record: Requirement)
    requires RequirementsNumbered(reqs, nextId)
    requires k < |reqs| && record.id == reqs[k].id
    ensures RequirementsNumbered(reqs[k := record], nextId)
  {
  }

  /**
   * Removing the record at `k` keeps the table numbered and in order, and
   * its id no longer occurs.
   */
  lemma RemoveKeepsNumbering(reqs: seq<Requirement>, nextId: nat, k: nat)
    requires RequirementsNumbered(reqs, nextId)
    requires k < |reqs|
    ensures RequirementsNumbered(reqs[..k] + reqs[k + 1..], nextId)
    ensures !Stores(reqs[..k] + reqs[k + 1..], reqs[k].id)
  {
  }

  /**
   * Appending a version numbered `String(nextVersionId)` to its own
   * requirement's list keeps the history numbered once the counter moves on.
   */
  lemma AppendVersionKeepsNumbering(h: History, nextVersionId: nat, v: Version)
    requires HistoryNumbered(h, nextVersionId)
    requires v.id == Decimal.Show(nextVersionId)
    ensures HistoryNumbered(h[v.requirementId := HistoryOf(h, v.requirementId) + [v]], nextVersionId + 1)
  {
    Decimal.ParseShow(nextVersionId);
    var vs := HistoryOf(h, v.requirementId);
    var ws := vs + [v];
    assert forall k :: 0 <= k < |vs| ==> ws[k] == vs[k];
    assert VersionsNumbered(v.requirementId, ws, nextVersionId + 1);
  }

  /** The version id `String(nextVersionId)` occurs nowhere in a numbered history. */
  lemma FreshVersionId(h: History, nextVersionId: nat)
    requires HistoryNumbered(h, nextVersionId)
    ensures forall rid, k :: rid in h && 0 <= k < |h[rid]| ==> h[rid][k].id != Decimal.Show(nextVersionId)
  {
    Decimal.ParseShow(nextVersionId);
  }

  /** In a numbered list the last version has the greatest version number. */
  lemma LastVersionIsLatest(requirementId: string, versions: seq<Version>, nextVersionId: nat)
    requires VersionsNumbered(requirementId, versions, nextVersionId)
    requires versions != []
    ensures forall k :: 0 <= k < |versions| - 1 ==>
      Decimal.Parse(versions[k].id) < Decimal.Parse(versions[|versions| - 1].id)
  {
  }

  // ----- The store -----

  /**
   * The module-level state of the backend and its exported operations. Each
   * method's callback runs only on a passed trial; a failed trial returns
   * the network error at once, and what the callback returns or throws is
   * settled by `SimulateRequest`.
   */
  class Store {
    var requirements: seq<Requirement>
    var nextId: nat
    var versionHistory: History
    var nextVersionId: nat

    ghost predicate Valid()
      reads this
    {
      RequirementsNumbered(requirements, nextId) && HistoryNumbered(versionHistory, nextVersionId)
    }

    /** First run: the seeded table, id counter 5, no history, version counter 1. */
    constructor ()
      ensures Valid()
      ensures requirements == SeedRequirements() && nextId == SeedNextId
      ensures versionHistory == map[] && nextVersionId == SeedNextVersionId
    {
      requirements := SeedRequirements();
      nextId := SeedNextId;
      versionHistory := map[];
      nextVersionId := SeedNextVersionId;
      SeedIsNumbered();
    }

    /** `getRequirements`: a copy of the table, or the empty list when the call fails. */
    method GetRequirements(networkOk: bool) returns (list: seq<Requirement>)
      ensures networkOk ==> list == requirements
      ensures !networkOk ==> list == []
    {
      list := CatchToEmpty(SimulateRequest(networkOk, Returned(requirements)));
    }

    /** `getRequirementById`: the record with that id, or `NotFound`. */
    method GetRequirementById(networkOk: bool, id: string) returns (r: Result<Requirement, Error>)
      ensures !networkOk ==> r == Failure(NetworkError)
      ensures networkOk ==> (r.Success? <==> Stores(requirements, id))
      ensures networkOk && r.Failure? ==> r.error == NotFound(id)
      ensures r.Success? ==> r.value.id == id && r.value in requirements
      ensures r.Success? ==> Stores(requirements, id) && r.value == requirements[FindIndex(requirements, id)]
    {
      if !networkOk {
        r := Failure(NetworkError);
        return;
      }
      var index := FindIndex(requirements, id);
      if index == -1 {
        r := SimulateRequest(networkOk, Threw(NotFound(id)));
      } else {
        r := SimulateRequest(networkOk, Returned(requirements[index]));
      }
    }

    /**
     * `createRequirement`: stores the defaulted record under id
     * `String(nextId)`, which no stored record has, at the end of the table,
     * and moves the id counter on by one.
     */
    method CreateRequirement(networkOk: bool, drift: bool, data: Patch) returns (r: Result<Requirement, Error>)
      requires Valid()
      modifies this`requirements, this`nextId
      ensures Valid()
      ensures !networkOk ==> r == Failure(NetworkError) && requirements == old(requirements) && nextId == old(nextId)
      ensures networkOk ==> r == Success(NewRequirement(Decimal.Show(old(nextId)), data, drift))
      ensures networkOk ==> requirements == old(requirements) + [r.value] && nextId == old(nextId) + 1
      ensures networkOk ==> forall i :: 0 <= i < |old(requirements)| ==> old(requirements)[i].id != r.value.id
    {
      if !networkOk {
        r := Failure(NetworkError);
        return;
      }
      var record := NewRequirement(Decimal.Show(nextId), data, drift);
      AppendFreshId(requirements, nextId, record);
      nextId := nextId + 1;
      requirements := requirements + [record];
      r := SimulateRequest(networkOk, Returned(record));
    }

    /**
     * `updateRequirement`: replaces the record with that id by the update
     * merge, leaving every other record and the order as they were; a missing
     * id fails with `NotFound` and changes nothing.
     */
    method UpdateRequirement(networkOk: bool, drift: bool, id: string, data: Patch)
      returns (r: Result<Requirement, Error>)
      requires Valid()
      modifies this`requirements
      ensures Valid()
      ensures !networkOk ==> r == Failure(NetworkError) && requirements == old(requirements)
      ensures networkOk && !Stores(old(requirements), id) ==>
        r == Failure(NotFound(id)) && requirements == old(requirements)
      ensures networkOk && Stores(old(requirements), id) ==>
        var k := FindIndex(old(requirements), id);
        && r == Success(MergeUpdate(old(requirements)[k], data, drift))
        && requirements == old(requirements)[k := r.value]
    {
      if !networkOk {
        r := Failure(NetworkError);
        return;
      }
      var index := FindIndex(requirements, id);
      if index == -1 {
        r := SimulateRequest(networkOk, Threw(NotFound(id)));
        return;
      }
      var updatedStatus := data.status;
      if data.status.Some? && data.status.value != "" && drift {
        updatedStatus := Some(JsString.Drift(data.status.value));
      }
      var current := requirements[index];
      var updated := Requirement(current.id, data.title.GetOr(current.title),
        data.description.GetOr(current.description), updatedStatus);
      ReplaceKeepsNumbering(requirements, nextId, index, updated);
      requirements := requirements[index := updated];
      r := SimulateRequest(networkOk, Returned(updated));
    }

    /**
     * `deleteRequirement`: removes the one record with that id, keeping the
     * others in order; the version history is untouched. A missing id fails
     * with `NotFound` and changes nothing.
     */
    method DeleteRequirement(networkOk: bool, id: string) returns (r: Result<bool, Error>)
      requires Valid()
      modifies this`requirements
      ensures Valid()
      ensures !networkOk ==> r == Failure(NetworkError) && requirements == old(requirements)
      ensures networkOk && !Stores(old(requirements), id) ==>
        r == Failure(NotFound(id)) && requirements == old(requirements)
      ensures networkOk && Stores(old(requirements), id) ==>
        var k := FindIndex(old(requirements), id);
        && r == Success(true)
        && requirements == old(requirements)[..k] + old(requirements)[k + 1..]
        && |requirements| == |old(requirements)| - 1
        && !Stores(requirements, id)
    {
      if !networkOk {
        r := Failure(NetworkError);
        return;
      }
      var index := FindIndex(requirements, id);
      if index == -1 {
        r := SimulateRequest(networkOk, Threw(NotFound(id)));
        return;
      }
      RemoveKeepsNumbering(requirements, nextId, index);
      requirements := requirements[..index] + requirements[index + 1..];
      r := SimulateRequest(networkOk, Returned(true));
    }

    /** `generateAcceptanceCriteria`: the template for the current title of that requirement. */
    method GenerateAcceptanceCriteria(networkOk: bool, requirementId: string, generatedAt: string)
      returns (r: Result<AcceptanceCriteria, Error>)
      ensures !networkOk ==> r == Failure(NetworkError)
      ensures networkOk ==> (r.Success? <==> Stores(requirements, requirementId))
      ensures networkOk && r.Failure? ==> r.error == NotFound(requirementId)
      ensures r.Success? ==>
        && r.value.requirementId == requirementId && r.value.generatedAt == generatedAt
        && exists i :: 0 <= i < |requirements| && requirements[i].id == requirementId
                       && r.value.criteria == CriteriaLines(requirements[i].title)
      ensures r.Success? ==>
        && Stores(requirements, requirementId)
        && r.value.criteria == CriteriaLines(requirements[FindIndex(requirements, requirementId)].title)
    {
      if !networkOk {
        r := Failure(NetworkError);
        return;
      }
      var index := FindIndex(requirements, requirementId);
      if index == -1 {
        r := SimulateRequest(networkOk, Threw(NotFound(requirementId)));
        return;
      }
      var requirement := requirements[index];
      var criteria := AcceptanceCriteria(requirementId, CriteriaLines(requirement.title), generatedAt);
      r := SimulateRequest(networkOk, Returned(criteria));
    }

    /** `getVersionHistory`: that requirement's versions in append order, or empty. */
    method GetVersionHistory(networkOk: bool, requirementId: string) returns (list: seq<Version>)
      ensures networkOk && requirementId in versionHistory ==> list == versionHistory[requirementId]
      ensures !networkOk || requirementId !in versionHistory ==> list == []
    {
      list := CatchToEmpty(SimulateRequest(networkOk, Returned(HistoryOf(versionHistory, requirementId))));
    }

    /**
     * `commitVersion`: appends one version, numbered `String(nextVersionId)`,
     * with the trimmed title and the description as given, to that id's list,
     * which need not belong to a stored requirement; earlier entries and other
     * ids' lists are unchanged, and the version counter moves on by one.
     */
    method CommitVersion(networkOk: bool, requirementId: string, title: string, description: string,
                         timestamp: string)
      returns (r: Result<Version, Error>)
      requires Valid()
      modifies this`versionHistory, this`nextVersionId
      ensures Valid()
      ensures !networkOk ==>
        r == Failure(NetworkError) && versionHistory == old(versionHistory) && nextVersionId == old(nextVersionId)
      ensures networkOk ==>
        r == Success(Version(Decimal.Show(old(nextVersionId)), requirementId, JsString.Trim(title), description, timestamp))
      ensures networkOk ==> nextVersionId == old(nextVersionId) + 1
      ensures networkOk ==>
        && requirementId in versionHistory
        && versionHistory[requirementId] == HistoryOf(old(versionHistory), requirementId) + [r.value]
        && versionHistory.Keys == old(versionHistory).Keys + {requirementId}
        && forall rid :: rid in old(versionHistory) && rid != requirementId ==>
             versionHistory[rid] == old(versionHistory)[rid]
      ensures networkOk ==> forall rid, k :: rid in old(versionHistory) && 0 <= k < |old(versionHistory)[rid]| ==>
        old(versionHistory)[rid][k].id != r.value.id
    {
      if !networkOk {
        r := Failure(NetworkError);
        return;
      }
      // The list is created on first commit; `HistoryOf` gives [] for it.
      var versions := HistoryOf(versionHistory, requirementId);
      var version := Version(Decimal.Show(nextVersionId), requirementId, JsString.Trim(title), description, timestamp);
      FreshVersionId(versionHistory, nextVersionId);
      AppendVersionKeepsNumbering(versionHistory, nextVersionId, version);
      nextVersionId := nextVersionId + 1;
      versionHistory := versionHistory[requirementId := versions + [version]];
      r := SimulateRequest(networkOk, Returned(version));
    }

    /**
     * `restoreVersion`: overwrites only the title and description of the
     * record with that id; its id and status are kept and the history is
     * neither extended nor cut. A missing id fails with `NotFound`.
     */
    method RestoreVersion(networkOk: bool, requirementId: string, version: Version)
      returns (r: Result<Requirement, Error>)
      requires Valid()
      modifies this`requirements
      ensures Valid()
      ensures !networkOk ==> r == Failure(NetworkError) && requirements == old(requirements)
      ensures networkOk && !Stores(old(requirements), requirementId) ==>
        r == Failure(NotFound(requirementId)) && requirements == old(requirements)
      ensures networkOk && Stores(old(requirements), requirementId) ==>
        var k := FindIndex(old(requirements), requirementId);
        && r == Success(MergeRestore(old(requirements)[k], version))
        && requirements == old(requirements)[k := r.value]
    {
      if !networkOk {
        r := Failure(NetworkError);
        return;
      }
      var index := FindIndex(requirements, requirementId);
      if index == -1 {
        r := SimulateRequest(networkOk, Threw(NotFound(requirementId)));
        return;
      }
      var restored := requirements[index].(title := version.title, description := version.description);
      ReplaceKeepsNumbering(requirements, nextId, index, restored);
      requirements := requirements[index := restored];
      r := SimulateRequest(networkOk, Returned(restored));
    }

    /**
     * `autoSaveRequirement`: replaces the record with that id by the plain
     * shallow merge (no drift; an omitted status is kept); a missing id fails
     * with `NotFound` and changes nothing.
     */
    method AutoSaveRequirement(networkOk: bool, id: string, data: Patch) returns (r: Result<Requirement, Error>)
      requires Valid()
      modifies this`requirements
      ensures Valid()
      ensures !networkOk ==> r == Failure(NetworkError) && requirements == old(requirements)
      ensures networkOk && !Stores(old(requirements), id) ==>
        r == Failure(NotFound(id)) && requirements == old(requirements)
      ensures networkOk && Stores(old(requirements), id) ==>
        var k := FindIndex(old(requirements), id);
        && r == Success(MergeAutoSave(old(requirements)[k], data))
        && requirements == old(requirements)[k := r.value]
    {
      if !networkOk {
        r := Failure(NetworkError);
        return;
      }
      var index := FindIndex(requirements, id);
      if index == -1 {
        r := SimulateRequest(networkOk, Threw(NotFound(id)));
        return;
      }
      var current := requirements[index];
      var saved := Requirement(current.id, data.title.GetOr(current.title),
        data.description.GetOr(current.description), if data.status.Some? then data.status else current.status);
      ReplaceKeepsNumbering(requirements, nextId, index, saved);
      requirements := requirements[index := saved];
      r := SimulateRequest(networkOk, Returned(saved));
    }
  }

  /**
   * A verified client scenario from the first start: commit the seeded requirement "1" as
   * "Login", commit it again under the edited title "Login v2", then delete
   * it. The history keeps both versions, in commit order, after the delete.
   */
  method CommitTwiceThenDelete() {
    var store := new Store();
    var id := "1";
    assert store.requirements[0].id == id;
    JsString.TrimUnchanged("Login");
    JsString.TrimUnchanged("Login v2");
    var first := store.CommitVersion(true, id, "Login", "", "t0");
    assert first.value.title == "Login" && store.versionHistory[id] == [first.value];
    var second := store.CommitVersion(true, id, "Login v2", "", "t1");
    assert second.value.title == "Login v2";
    ghost var committed := store.versionHistory;
    assert committed[id] == [first.value, second.value];
    var deleted := store.DeleteRequirement(true, id);
    assert deleted == Success(true) && store.versionHistory == committed;
    var history := store.GetVersionHistory(true, id);
    assert history == committed[id];
    assert history[0].title == "Login" && history[1].title == "Login v2";
  }
}
