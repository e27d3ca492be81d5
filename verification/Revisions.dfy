/** Draft, publish and import of one workflow's revisions (app/services/workflow_versions.py:20-90,
    app/services/workflow_engine.py:262-306). */
module Revisions {
  import opened Common

  /** A configuration document: its version field, its reference prefix, the rest of it, and
      whether what is not its version passes validate_workflow_config. */
  datatype Document = Document(version: Option<int>, prefix: string, body: string, wellFormed: bool)

  datatype Status = Draft | Published | Archived

  datatype Revision = Revision(version: int, status: Status, config: Document)

  datatype Workflow = Workflow(version: int, config: Document)

  datatype Registry = Registry(workflow: Option<Workflow>, revisions: seq<Revision>)

  datatype Refusal = Invalid | PrefixTaken | NoVersion | OlderVersion | VersionTaken | NotADraft | NoWorkflow

  predicate Accepts(doc: Document) {
    doc.wellFormed && (doc.version.Some? ==> doc.version.value >= 1)
  }

  function Max(a: int, b: int): int {
    if a < b then b else a
  }

  /** The first revision at this version, or the number of revisions. */
  function FindVersion(rs: seq<Revision>, v: int): (k: nat)
    ensures k <= |rs|
    ensures k < |rs| ==> rs[k].version == v
    ensures forall j :: 0 <= j < k ==> rs[j].version != v
  {
    if rs == [] || rs[0].version == v then 0
    else
      var k := FindVersion(rs[1..], v);
      assert forall j :: 0 < j < k + 1 ==> rs[j] == rs[1..][j - 1];
      k + 1
  }

  /** The first draft, or the number of revisions. */
  function FindDraft(rs: seq<Revision>): (k: nat)
    ensures k <= |rs|
    ensures k < |rs| ==> rs[k].status == Draft
    ensures forall j :: 0 <= j < k ==> rs[j].status != Draft
  {
    if rs == [] || rs[0].status == Draft then 0
    else
      var k := FindDraft(rs[1..]);
      assert forall j :: 0 < j < k + 1 ==> rs[j] == rs[1..][j - 1];
      k + 1
  }

  function MaxVersion(rs: seq<Revision>, default: int): int {
    if rs == [] then default
    else if |rs| == 1 then rs[0].version
    else Max(MaxVersion(rs[..|rs| - 1], default), rs[|rs| - 1].version)
  }

  // ---------------------------------------------------------------- operations

  /** ensure_published_revision. */
  function Ensured(w: Workflow, rs: seq<Revision>): seq<Revision> {
    if FindVersion(rs, w.version) < |rs| then rs else rs + [Revision(w.version, Published, w.config)]
  }

  lemma EnsuredHasIt(w: Workflow, rs: seq<Revision>)
    ensures FindVersion(Ensured(w, rs), w.version) < |Ensured(w, rs)|
  {
    if FindVersion(rs, w.version) == |rs| {
      assert Ensured(w, rs)[|rs|].version == w.version;
    }
  }

  /** The table after an import of a newer version: the published row archived, and a row for
      the new version unless one is there. */
  function Superseded(w: Workflow, rs: seq<Revision>, next: Workflow): seq<Revision>
    requires FindVersion(rs, w.version) < |rs|
  {
    var prior := FindVersion(rs, w.version);
    Ensured(next, rs[prior := rs[prior].(status := Archived)])
  }

  /** The import for a workflow that exists. */
  function Upgraded(w: Workflow, revisions: seq<Revision>, next: Workflow): Result<Registry, Refusal> {
    var rs := Ensured(w, revisions);
    if next.version < w.version then Err(OlderVersion)
    else if next.version == w.version then
      if next.config == w.config then Ok(Registry(Some(w), rs)) else Err(VersionTaken)
    else
      EnsuredHasIt(w, revisions);
      Ok(Registry(Some(next), Superseded(w, rs, next)))
  }

  /** import_workflow_definition, given the reference prefixes of the other workflows. */
  function Import(s: Registry, doc: Document, others: seq<string>): Result<Registry, Refusal> {
    if !Accepts(doc) then Err(Invalid)
    else if doc.prefix in others then Err(PrefixTaken)
    else if doc.version == None then Err(NoVersion)
    else
      var next := Workflow(doc.version.value, doc);
      if s.workflow == None then Ok(Registry(Some(next), Ensured(next, s.revisions)))
      else Upgraded(s.workflow.value, s.revisions, next)
  }

  /** A different revision already holds this version. */
  predicate Collides(rs: seq<Revision>, v: int, self: nat) {
    exists k :: 0 <= k < |rs| && k != self && rs[k].version == v
  }

  function DraftVersion(w: Workflow, rs: seq<Revision>, doc: Document): int {
    var desired := Max(w.version + 1, if doc.version.Some? then doc.version.value else w.version + 1);
    if Collides(rs, desired, FindDraft(rs)) then MaxVersion(rs, w.version) + 1 else desired
  }

  /** The table with the document as its draft. */
  function Drafted(w: Workflow, rs: seq<Revision>, doc: Document): seq<Revision> {
    var v, k := DraftVersion(w, rs, doc), FindDraft(rs);
    var draft := Revision(v, Draft, doc.(version := Some(v)));
    if k < |rs| then rs[k := draft] else rs + [draft]
  }

  function SaveDraft(s: Registry, doc: Document): Result<Registry, Refusal> {
    if !Accepts(doc) then Err(Invalid)
    else if s.workflow == None then Err(NoWorkflow)
    else
      var w := s.workflow.value;
      Ok(Registry(Some(w), Drafted(w, Ensured(w, s.revisions), doc)))
  }

  function PublishVersion(w: Workflow, rs: seq<Revision>, k: nat): int
    requires k < |rs|
  {
    var next := Max(w.version + 1, rs[k].version);
    if Collides(rs, next, k) then MaxVersion(rs, w.version) + 1 else next
  }

  /** Every published revision becomes archived. */
  function ArchiveAll(rs: seq<Revision>): (r: seq<Revision>)
    ensures |r| == |rs|
    ensures forall k :: 0 <= k < |rs| ==>
      r[k] == if rs[k].status == Published then rs[k].(status := Archived) else rs[k]
  {
    seq(|rs|, k requires 0 <= k < |rs| => if rs[k].status == Published then rs[k].(status := Archived) else rs[k])
  }

  function Publish(s: Registry, k: nat): Result<Registry, Refusal>
    requires k < |s.revisions|
  {
    var draft := s.revisions[k];
    if s.workflow == None then Err(NoWorkflow)
    else if draft.status != Draft then Err(NotADraft)
    else if !Accepts(draft.config) then Err(Invalid)
    else
      var v := PublishVersion(s.workflow.value, s.revisions, k);
      var config := draft.config.(version := Some(v));
      Ok(Registry(Some(Workflow(v, config)), ArchiveAll(s.revisions)[k := Revision(v, Published, config)]))
  }

  datatype Operation = ImportIt(doc: Document, others: seq<string>) | SaveIt(doc: Document) | PublishIt(row: nat)

  function Perform(s: Registry, op: Operation): Registry {
    var r := match op
      case ImportIt(doc, others) => Import(s, doc, others)
      case SaveIt(doc) => SaveDraft(s, doc)
      case PublishIt(k) => if k < |s.revisions| then Publish(s, k) else Err(NotADraft);
    if r.Ok? then r.value else s
  }

  function Run(s: Registry, ops: seq<Operation>): Registry {
    if ops == [] then s else Perform(Run(s, ops[..|ops| - 1]), ops[|ops| - 1])
  }

  const EMPTY := Registry(None, [])

  // ---------------------------------------------------------------- the invariant

  ghost predicate DistinctVersions(rs: seq<Revision>) {
    forall a, b :: 0 <= a < b < |rs| ==> rs[a].version != rs[b].version
  }

  ghost predicate OneDraft(rs: seq<Revision>) {
    forall a, b :: 0 <= a < b < |rs| ==> rs[a].status != Draft || rs[b].status != Draft
  }

  /** Row p is the published one. */
  ghost predicate IsCurrent(w: Workflow, rs: seq<Revision>, p: nat) {
    p < |rs| && rs[p] == Revision(w.version, Published, w.config)
    && forall k :: 0 <= k < |rs| && rs[k].status == Published ==> k == p
  }

  ghost predicate WellKept(w: Workflow, rs: seq<Revision>) {
    && DistinctVersions(rs) && OneDraft(rs)
    && (exists p :: IsCurrent(w, rs, p))
    && (forall k :: 0 <= k < |rs| && rs[k].status != Draft ==> rs[k].version <= w.version)
    && (forall k :: 0 <= k < |rs| ==> Accepts(rs[k].config) && rs[k].config.version == Some(rs[k].version))
  }

  ghost predicate Inv(s: Registry) {
    if s.workflow == None then s.revisions == [] else WellKept(s.workflow.value, s.revisions)
  }

  /** What the history never loses: the version and content of what was once published. */
  ghost predicate HistoryKept(s: Registry, r: Registry) {
    && |s.revisions| <= |r.revisions|
    && (forall k :: 0 <= k < |s.revisions| && s.revisions[k].status != Draft ==>
          && r.revisions[k].version == s.revisions[k].version
          && r.revisions[k].config == s.revisions[k].config
          && r.revisions[k].status != Draft
          && (s.revisions[k].status == Archived ==> r.revisions[k].status == Archived))
    && (s.workflow.Some? ==> r.workflow.Some? && s.workflow.value.version <= r.workflow.value.version)
  }

  /** The same document but for its version. */
  ghost predicate SameContent(a: Document, b: Document) {
    a.prefix == b.prefix && a.body == b.body && a.wellFormed == b.wellFormed
  }

  /** Row k holds this document, at this version and in this status, and names the version in it. */
  ghost predicate Holds(rs: seq<Revision>, k: nat, version: int, status: Status, doc: Document) {
    && k < |rs| && rs[k].version == version && rs[k].status == status
    && SameContent(rs[k].config, doc) && rs[k].config.version == Some(version)
  }

  /** Every row but k is as it was, except that what was published is archived. */
  ghost predicate OthersArchived(a: seq<Revision>, b: seq<Revision>, k: nat) {
    |a| <= |b| && forall j :: 0 <= j < |a| && j != k ==>
      && b[j].version == a[j].version && b[j].config == a[j].config
      && b[j].status == if a[j].status == Published then Archived else a[j].status
  }

  lemma EnsuredChangesNothing(w: Workflow, rs: seq<Revision>)
    requires WellKept(w, rs)
    ensures Ensured(w, rs) == rs && FindVersion(rs, w.version) < |rs| && IsCurrent(w, rs, FindVersion(rs, w.version))
  {
    var p: nat :| IsCurrent(w, rs, p);
    assert rs[p].version == w.version;
    assert FindVersion(rs, w.version) == p;
  }

  /** Both version-collision fallbacks are unreachable. */
  lemma NoFallback(w: Workflow, rs: seq<Revision>, doc: Document)
    requires WellKept(w, rs)
    ensures DraftVersion(w, rs, doc)
         == Max(w.version + 1, if doc.version.Some? then doc.version.value else w.version + 1)
    ensures forall k :: 0 <= k < |rs| && rs[k].status == Draft ==>
      PublishVersion(w, rs, k) == Max(w.version + 1, rs[k].version)
  {
    var desired := Max(w.version + 1, if doc.version.Some? then doc.version.value else w.version + 1);
    forall k | 0 <= k < |rs| && rs[k].version == desired ensures k == FindDraft(rs) {
      assert rs[k].status == Draft;
    }
  }

  /** A draft at a version beyond the current one can replace the old draft. */
  lemma DraftReplaces(w: Workflow, rs: seq<Revision>, k: nat, draft: Revision)
    requires WellKept(w, rs) && k < |rs| && rs[k].status == Draft
    requires draft.status == Draft && draft.version > w.version
    requires Accepts(draft.config) && draft.config.version == Some(draft.version)
    ensures WellKept(w, rs[k := draft])
  {
    var p: nat :| IsCurrent(w, rs, p);
    assert IsCurrent(w, rs[k := draft], p);
  }

  /** Or be added when there is none. */
  lemma DraftIsAdded(w: Workflow, rs: seq<Revision>, draft: Revision)
    requires WellKept(w, rs) && forall k :: 0 <= k < |rs| ==> rs[k].status != Draft
    requires draft.status == Draft && draft.version > w.version
    requires Accepts(draft.config) && draft.config.version == Some(draft.version)
    ensures WellKept(w, rs + [draft])
  {
    var p: nat :| IsCurrent(w, rs, p);
    assert IsCurrent(w, rs + [draft], p);
  }

  lemma SaveKeeps(s: Registry, doc: Document)
    requires Inv(s) && SaveDraft(s, doc).Ok?
    ensures Inv(SaveDraft(s, doc).value) && SaveDraft(s, doc).value.workflow == s.workflow
    ensures HistoryKept(s, SaveDraft(s, doc).value)
  {
    var w, rs := s.workflow.value, s.revisions;
    EnsuredChangesNothing(w, rs);
    NoFallback(w, rs, doc);
    var v, k := DraftVersion(w, rs, doc), FindDraft(rs);
    var draft := Revision(v, Draft, doc.(version := Some(v)));
    if k < |rs| {
      DraftReplaces(w, rs, k, draft);
    } else {
      DraftIsAdded(w, rs, draft);
    }
  }

  /** Row k of r is the document given as a draft, at the version after the current one or its own
      if that is later; it took the place of the draft or was added as the only one, and every
      other row is as it was. */
  ghost predicate DraftSavedAt(s: Registry, doc: Document, r: Registry, k: nat)
    requires s.workflow.Some?
  {
    var current := s.workflow.value.version;
    var version := if doc.version.Some? && doc.version.value > current + 1 then doc.version.value else current + 1;
    && Holds(r.revisions, k, version, Draft, doc)
    && (if k < |s.revisions| then s.revisions[k].status == Draft && |r.revisions| == |s.revisions|
        else
          && k == |s.revisions| && |r.revisions| == k + 1
          && forall j :: 0 <= j < k ==> s.revisions[j].status != Draft)
    && forall j :: 0 <= j < |s.revisions| && j != k ==> r.revisions[j] == s.revisions[j]
  }

  lemma SavesTheDraft(s: Registry, doc: Document) returns (k: nat)
    requires Inv(s) && SaveDraft(s, doc).Ok?
    ensures DraftSavedAt(s, doc, SaveDraft(s, doc).value, k)
  {
    EnsuredChangesNothing(s.workflow.value, s.revisions);
    NoFallback(s.workflow.value, s.revisions, doc);
    k := FindDraft(s.revisions);
  }

  /** Publishing on the table: the draft becomes the only published row. */
  lemma DraftIsPromoted(w: Workflow, rs: seq<Revision>, k: nat, next: Workflow)
    requires WellKept(w, rs) && k < |rs| && rs[k].status == Draft
    requires next.version > w.version && next.version >= rs[k].version
    requires Accepts(next.config) && next.config.version == Some(next.version)
    ensures WellKept(next, ArchiveAll(rs)[k := Revision(next.version, Published, next.config)])
  {
    var r := ArchiveAll(rs)[k := Revision(next.version, Published, next.config)];
    forall j | 0 <= j < |rs| && j != k
      ensures rs[j].status != Draft && r[j].version < next.version && r[j].status == Archived
    {
    }
    assert IsCurrent(next, r, k);
  }

  lemma PublishKeeps(s: Registry, k: nat)
    requires Inv(s) && k < |s.revisions| && Publish(s, k).Ok?
    ensures Inv(Publish(s, k).value) && HistoryKept(s, Publish(s, k).value)
    ensures Publish(s, k).value.workflow.value.version > s.workflow.value.version
  {
    var w, rs := s.workflow.value, s.revisions;
    NoFallback(w, rs, rs[k].config);
    DraftIsPromoted(w, rs, k, Publish(s, k).value.workflow.value);
  }

  /** What is published is the draft: its content becomes the workflow's and stays in its row,
      under the next version or the draft's own if that is later. */
  lemma PublishesTheDraft(s: Registry, k: nat)
    requires Inv(s) && k < |s.revisions| && Publish(s, k).Ok?
    ensures var r := Publish(s, k).value;
      var current, drafted := s.workflow.value.version, s.revisions[k].version;
      var version := if drafted > current then drafted else current + 1;
      && s.revisions[k].status == Draft && r.workflow.Some?
      && r.workflow.value.version == version && r.workflow.value.config.version == Some(version)
      && SameContent(r.workflow.value.config, s.revisions[k].config)
      && |r.revisions| == |s.revisions| && Holds(r.revisions, k, version, Published, s.revisions[k].config)
      && OthersArchived(s.revisions, r.revisions, k)
  {
    NoFallback(s.workflow.value, s.revisions, s.revisions[k].config);
  }

  /** Only a draft whose document still passes validation can be published. */
  lemma PublishAcceptedIff(s: Registry, k: nat)
    requires s.workflow.Some? && k < |s.revisions|
    ensures Publish(s, k).Ok? <==>
      && s.revisions[k].status == Draft && s.revisions[k].config.wellFormed
      && (s.revisions[k].config.version.Some? ==> s.revisions[k].config.version.value >= 1)
  {
  }

  lemma SaveAcceptedIff(s: Registry, doc: Document)
    ensures SaveDraft(s, doc).Ok? <==>
      s.workflow.Some? && doc.wellFormed && (doc.version.Some? ==> doc.version.value >= 1)
  {
  }

  /** No revision holds this version yet. */
  ghost predicate Untaken(rs: seq<Revision>, v: int) {
    forall k :: 0 <= k < |rs| ==> rs[k].version != v
  }

  /** The archived table still has the row of every version, and no published one. */
  lemma NothingPublished(w: Workflow, rs: seq<Revision>, p: nat)
    requires WellKept(w, rs) && IsCurrent(w, rs, p)
    ensures var archived := rs[p := rs[p].(status := Archived)];
      forall k :: 0 <= k < |rs| ==> archived[k].status != Published && archived[k].version == rs[k].version
  {
  }

  /** A published row at a fresh version above all others can be added to such a table. */
  lemma PublishedIsAdded(next: Workflow, rs: seq<Revision>)
    requires DistinctVersions(rs) && OneDraft(rs) && Untaken(rs, next.version)
    requires forall k :: 0 <= k < |rs| ==> rs[k].status != Published
    requires forall k :: 0 <= k < |rs| && rs[k].status != Draft ==> rs[k].version <= next.version
    requires forall k :: 0 <= k < |rs| ==> Accepts(rs[k].config) && rs[k].config.version == Some(rs[k].version)
    requires Accepts(next.config) && next.config.version == Some(next.version)
    ensures WellKept(next, rs + [Revision(next.version, Published, next.config)])
  {
    assert IsCurrent(next, rs + [Revision(next.version, Published, next.config)], |rs|);
  }

  lemma SupersededTable(w: Workflow, rs: seq<Revision>, next: Workflow)
    requires WellKept(w, rs) && Untaken(rs, next.version)
    ensures var p := FindVersion(rs, w.version);
      p < |rs| && Superseded(w, rs, next)
               == rs[p := rs[p].(status := Archived)] + [Revision(next.version, Published, next.config)]
  {
    EnsuredChangesNothing(w, rs);
    var p := FindVersion(rs, w.version);
    NothingPublished(w, rs, p);
    assert FindVersion(rs[p := rs[p].(status := Archived)], next.version) == |rs|;
  }

  /** A newer version that no revision holds gets its own published row. */
  lemma NewVersionFits(w: Workflow, rs: seq<Revision>, next: Workflow)
    requires WellKept(w, rs) && next.version > w.version && Untaken(rs, next.version)
    requires Accepts(next.config) && next.config.version == Some(next.version)
    ensures FindVersion(rs, w.version) < |rs| && WellKept(next, Superseded(w, rs, next))
    ensures HistoryKept(Registry(Some(w), rs), Registry(Some(next), Superseded(w, rs, next)))
  {
    EnsuredChangesNothing(w, rs);
    var p := FindVersion(rs, w.version);
    NothingPublished(w, rs, p);
    var archived := rs[p := rs[p].(status := Archived)];
    PublishedIsAdded(next, archived);
    SupersededTable(w, rs, next);
  }

  /** One that a revision holds does not, so nothing is published afterwards. */
  lemma TakenVersionBreaks(w: Workflow, rs: seq<Revision>, next: Workflow, k: nat)
    requires WellKept(w, rs) && k < |rs| && rs[k].version == next.version
    ensures FindVersion(rs, w.version) < |rs| && !WellKept(next, Superseded(w, rs, next))
  {
    EnsuredChangesNothing(w, rs);
    var p := FindVersion(rs, w.version);
    NothingPublished(w, rs, p);
    var archived := rs[p := rs[p].(status := Archived)];
    assert archived[k].version == next.version;
    assert FindVersion(archived, next.version) <= k;
    assert Superseded(w, rs, next) == archived;
    forall n ensures !IsCurrent(next, archived, n) {
    }
  }

  lemma FirstImportKeeps(next: Workflow)
    requires Accepts(next.config) && next.config.version == Some(next.version)
    ensures WellKept(next, Ensured(next, []))
  {
    assert IsCurrent(next, Ensured(next, []), 0);
  }

  lemma ImportKeeps(s: Registry, doc: Document, others: seq<string>)
    requires Inv(s) && Import(s, doc, others).Ok?
    requires s.workflow.Some? && doc.version.value > s.workflow.value.version ==>
      Untaken(s.revisions, doc.version.value)
    ensures Inv(Import(s, doc, others).value) && HistoryKept(s, Import(s, doc, others).value)
  {
    var next := Workflow(doc.version.value, doc);
    if s.workflow == None {
      FirstImportKeeps(next);
    } else {
      EnsuredChangesNothing(s.workflow.value, s.revisions);
      if next.version > s.workflow.value.version {
        NewVersionFits(s.workflow.value, s.revisions, next);
      }
    }
  }

  /** An import is accepted for a valid document with a version, a reference prefix no other
      workflow has, and a version that is new, later than the current one, or the current one
      with the current document. */
  lemma ImportAcceptedIff(s: Registry, doc: Document, others: seq<string>)
    ensures Import(s, doc, others).Ok? <==>
      && doc.wellFormed && doc.version.Some? && doc.version.value >= 1
      && (forall n :: 0 <= n < |others| ==> others[n] != doc.prefix)
      && (s.workflow.Some? ==> doc.version.value > s.workflow.value.version
                               || (doc.version.value == s.workflow.value.version && doc == s.workflow.value.config))
  {
  }

  /** What is deployed is the document: it is the workflow's and stands published in a new row. */
  lemma ImportsTheDocument(s: Registry, doc: Document, others: seq<string>)
    requires Inv(s) && Import(s, doc, others).Ok?
    requires s.workflow.Some? ==> Untaken(s.revisions, doc.version.value) || doc == s.workflow.value.config
    ensures var r := Import(s, doc, others).value;
      && r.workflow == Some(Workflow(doc.version.value, doc))
      && if s.workflow.Some? && doc == s.workflow.value.config then r == s
         else
           && |r.revisions| == |s.revisions| + 1
           && Holds(r.revisions, |s.revisions|, doc.version.value, Published, doc)
           && OthersArchived(s.revisions, r.revisions, |s.revisions|)
  {
    if s.workflow.Some? {
      var w := s.workflow.value;
      EnsuredChangesNothing(w, s.revisions);
      if doc != w.config {
        SupersededTable(w, s.revisions, Workflow(doc.version.value, doc));
      }
    } else {
      AfterFirstImport(doc);
    }
  }

  /** Importing a version that the pending draft already holds leaves the workflow without a
      published revision: an import above the current version keeps the invariant exactly when
      no revision holds its version. */
  lemma ImportKeepsIff(s: Registry, doc: Document, others: seq<string>)
    requires Inv(s) && s.workflow.Some? && Import(s, doc, others).Ok?
    requires doc.version.value > s.workflow.value.version
    ensures Inv(Import(s, doc, others).value) <==> Untaken(s.revisions, doc.version.value)
  {
    if Untaken(s.revisions, doc.version.value) {
      ImportKeeps(s, doc, others);
    } else {
      var k :| 0 <= k < |s.revisions| && s.revisions[k].version == doc.version.value;
      EnsuredChangesNothing(s.workflow.value, s.revisions);
      TakenVersionBreaks(s.workflow.value, s.revisions, Workflow(doc.version.value, doc), k);
    }
  }

  lemma AfterFirstImport(one: Document)
    requires Accepts(one) && one.version.Some?
    ensures var v := one.version.value;
      && Import(EMPTY, one, []) == Ok(Registry(Some(Workflow(v, one)), [Revision(v, Published, one)]))
      && Ensured(Workflow(v, one), []) == [Revision(v, Published, one)]
      && WellKept(Workflow(v, one), [Revision(v, Published, one)])
  {
    var w := Workflow(one.version.value, one);
    FirstImportKeeps(w);
    assert Ensured(w, []) == [Revision(w.version, Published, one)];
  }

  lemma DraftTakesItsVersion(s: Registry, two: Document)
    requires Inv(s) && s.workflow.Some? && Accepts(two) && two.version.Some?
    requires two.version.value > s.workflow.value.version
    ensures SaveDraft(s, two).Ok? && !Untaken(SaveDraft(s, two).value.revisions, two.version.value)
  {
    EnsuredChangesNothing(s.workflow.value, s.revisions);
    NoFallback(s.workflow.value, s.revisions, two);
    var r := SaveDraft(s, two).value.revisions;
    assert r[FindDraft(s.revisions)].version == two.version.value;
  }

  lemma ImportAfterDraftBreaks(s: Registry, two: Document)
    requires Inv(s) && s.workflow.Some? && Accepts(two) && two.version.Some?
    requires two.version.value > s.workflow.value.version
    ensures SaveDraft(s, two).Ok? && Inv(SaveDraft(s, two).value)
    ensures var r := Import(SaveDraft(s, two).value, two, []); r.Ok? && !Inv(r.value)
  {
    DraftTakesItsVersion(s, two);
    SaveKeeps(s, two);
    ImportKeepsIff(SaveDraft(s, two).value, two, []);
  }

  /** The failure happens, and three operations reach it: one version is imported, a newer one
      drafted, and that newer one imported. */
  lemma ImportOverDraftBreaks(one: Document, two: Document)
    requires Accepts(one) && one.version.Some? && Accepts(two) && two.version.Some?
    requires two.version.value > one.version.value
    ensures var s := Run(EMPTY, [ImportIt(one, []), SaveIt(two)]);
      Inv(s) && Import(s, two, []).Ok? && !Inv(Import(s, two, []).value)
  {
    AfterFirstImport(one);
    RunOfTwo(ImportIt(one, []), SaveIt(two));
    ImportAfterDraftBreaks(Import(EMPTY, one, []).value, two);
  }

  lemma RunOfTwo(a: Operation, b: Operation)
    ensures Run(EMPTY, [a, b]) == Perform(Perform(EMPTY, a), b)
  {
    var one := [a];
    assert [a, b][..|[a, b]| - 1] == one && one[..|one| - 1] == [];
    assert Run(EMPTY, one) == Perform(Run(EMPTY, []), a);
  }

  // ---------------------------------------------------------------- runs

  /** The import does not name the version of a pending draft. */
  ghost predicate Clean(s: Registry, op: Operation) {
    op.ImportIt? && op.doc.version.Some? && s.workflow.Some? && op.doc.version.value > s.workflow.value.version ==>
      Untaken(s.revisions, op.doc.version.value)
  }

  ghost predicate CleanRun(s: Registry, ops: seq<Operation>) {
    ops == [] || (CleanRun(s, ops[..|ops| - 1]) && Clean(Run(s, ops[..|ops| - 1]), ops[|ops| - 1]))
  }

  lemma StepKeeps(s: Registry, op: Operation)
    requires Inv(s) && Clean(s, op)
    ensures Inv(Perform(s, op)) && HistoryKept(s, Perform(s, op))
  {
    match op
    case ImportIt(doc, others) =>
      if Import(s, doc, others).Ok? {
        ImportKeeps(s, doc, others);
      }
    case SaveIt(doc) =>
      if SaveDraft(s, doc).Ok? {
        SaveKeeps(s, doc);
      }
    case PublishIt(k) =>
      if k < |s.revisions| && Publish(s, k).Ok? {
        PublishKeeps(s, k);
      }
  }

  /** Over every run of saves, publishes and such imports: the invariant, a version that never
      decreases, and a published history that is never rewritten. */
  lemma {:induction false} RunKeeps(ops: seq<Operation>)
    requires CleanRun(EMPTY, ops)
    ensures Inv(Run(EMPTY, ops))
    ensures forall n :: 0 <= n <= |ops| ==> HistoryKept(Run(EMPTY, ops[..n]), Run(EMPTY, ops))
  {
    if ops != [] {
      var init := ops[..|ops| - 1];
      RunKeeps(init);
      StepKeeps(Run(EMPTY, init), ops[|ops| - 1]);
      forall n | 0 <= n <= |ops| ensures HistoryKept(Run(EMPTY, ops[..n]), Run(EMPTY, ops)) {
        if n < |ops| {
          assert ops[..n] == init[..n];
          HistoryTransitive(Run(EMPTY, ops[..n]), Run(EMPTY, init), Run(EMPTY, ops));
        } else {
          assert ops[..n] == ops;
        }
      }
    } else {
      assert ops[..0] == ops;
    }
  }

  lemma HistoryTransitive(a: Registry, b: Registry, c: Registry)
    requires HistoryKept(a, b) && HistoryKept(b, c)
    ensures HistoryKept(a, c)
  {
  }

  // ---------------------------------------------------------------- where content comes from

  /** Some operation was given a document with this content. */
  ghost predicate Given(ops: seq<Operation>, config: Document) {
    exists n :: 0 <= n < |ops| && !ops[n].PublishIt? && SameContent(ops[n].doc, config)
  }

  /** This content is in the registry. */
  ghost predicate Present(s: Registry, config: Document) {
    || (s.workflow.Some? && SameContent(s.workflow.value.config, config))
    || exists k :: 0 <= k < |s.revisions| && SameContent(s.revisions[k].config, config)
  }

  lemma EnsuredAddsNothingNew(w: Workflow, rs: seq<Revision>, k: nat)
    requires k < |Ensured(w, rs)|
    ensures Present(Registry(Some(w), rs), Ensured(w, rs)[k].config)
  {
    if k < |rs| {
      assert SameContent(rs[k].config, Ensured(w, rs)[k].config);
    }
  }

  lemma SupersededAddsOneDocument(w: Workflow, rs: seq<Revision>, next: Workflow, k: nat)
    requires FindVersion(rs, w.version) < |rs| && k < |Superseded(w, rs, next)|
    ensures SameContent(Superseded(w, rs, next)[k].config, next.config)
         || (k < |rs| && Superseded(w, rs, next)[k].config == rs[k].config)
  {
  }

  lemma ImportAddsOneDocument(s: Registry, doc: Document, others: seq<string>, config: Document)
    requires Import(s, doc, others).Ok? && Present(Import(s, doc, others).value, config)
    ensures SameContent(doc, config) || Present(s, config)
  {
    var r := Import(s, doc, others).value;
    if !SameContent(r.workflow.value.config, config) {
      var k :| 0 <= k < |r.revisions| && SameContent(r.revisions[k].config, config);
      if s.workflow == None {
        EnsuredAddsNothingNew(Workflow(doc.version.value, doc), s.revisions, k);
      } else {
        UpgradeAddsOneDocument(s.workflow.value, s.revisions, Workflow(doc.version.value, doc), k);
      }
    }
  }

  lemma UpgradeAddsOneDocument(w: Workflow, rs: seq<Revision>, next: Workflow, k: nat)
    requires Upgraded(w, rs, next).Ok? && k < |Upgraded(w, rs, next).value.revisions|
    ensures var config := Upgraded(w, rs, next).value.revisions[k].config;
      SameContent(config, next.config) || Present(Registry(Some(w), rs), config)
  {
    var ensured := Ensured(w, rs);
    if next.version > w.version {
      EnsuredHasIt(w, rs);
      SupersededAddsOneDocument(w, ensured, next, k);
    }
    if k < |ensured| {
      EnsuredAddsNothingNew(w, rs, k);
    }
  }

  lemma SaveAddsOneDocument(s: Registry, doc: Document, config: Document)
    requires SaveDraft(s, doc).Ok? && Present(SaveDraft(s, doc).value, config)
    ensures SameContent(doc, config) || Present(s, config)
  {
    var r := SaveDraft(s, doc).value;
    if !SameContent(r.workflow.value.config, config) {
      var k :| 0 <= k < |r.revisions| && SameContent(r.revisions[k].config, config);
      var ensured := Ensured(s.workflow.value, s.revisions);
      if k < |ensured| && r.revisions[k] == ensured[k] {
        EnsuredAddsNothingNew(s.workflow.value, s.revisions, k);
      }
    }
  }

  lemma PublishAddsNothingNew(s: Registry, k: nat, config: Document)
    requires k < |s.revisions| && Publish(s, k).Ok? && Present(Publish(s, k).value, config)
    ensures Present(s, config)
  {
    var r := Publish(s, k).value;
    if SameContent(r.workflow.value.config, config) {
      assert SameContent(s.revisions[k].config, config);
    } else {
      var n :| 0 <= n < |r.revisions| && SameContent(r.revisions[n].config, config);
      assert SameContent(s.revisions[n].config, config);
    }
  }

  lemma StepAddsOneDocument(s: Registry, op: Operation, config: Document)
    requires Present(Perform(s, op), config)
    ensures Present(s, config) || (!op.PublishIt? && SameContent(op.doc, config))
  {
    match op
    case ImportIt(doc, others) =>
      if Import(s, doc, others).Ok? {
        ImportAddsOneDocument(s, doc, others, config);
      }
    case SaveIt(doc) =>
      if SaveDraft(s, doc).Ok? {
        SaveAddsOneDocument(s, doc, config);
      }
    case PublishIt(k) =>
      if k < |s.revisions| && Publish(s, k).Ok? {
        PublishAddsNothingNew(s, k, config);
      }
  }

  /** Over any run at all, whatever is drafted, published, archived or deployed has the content of
      a document that was saved or imported. */
  lemma {:induction false} ContentWasGiven(ops: seq<Operation>, config: Document)
    requires Present(Run(EMPTY, ops), config)
    ensures Given(ops, config)
  {
    if ops != [] {
      var init, last := ops[..|ops| - 1], ops[|ops| - 1];
      StepAddsOneDocument(Run(EMPTY, init), last, config);
      if Present(Run(EMPTY, init), config) {
        ContentWasGiven(init, config);
        var n :| 0 <= n < |init| && !init[n].PublishIt? && SameContent(init[n].doc, config);
        assert ops[n] == init[n];
      } else {
        assert ops[|ops| - 1] == last;
      }
    }
  }
}
