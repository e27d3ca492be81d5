/** The revision operations on mutable rows, proved against Revisions. */
module RevisionRows {
  import opened Common
  import opened Revisions

  class RevisionRow {
    var version: int
    var status: Status
    var config: Document

    ghost function View(): Revision
      reads this
    {
      Revision(version, status, config)
    }

    constructor (version: int, status: Status, config: Document)
      ensures View() == Revision(version, status, config)
    {
      this.version, this.status, this.config := version, status, config;
    }
  }

  class WorkflowRow {
    var version: int
    var config: Document

    ghost function View(): Workflow
      reads this
    {
      Workflow(version, config)
    }

    constructor (version: int, config: Document)
      ensures View() == Workflow(version, config)
    {
      this.version, this.config := version, config;
    }
  }

  ghost function Views(rows: seq<RevisionRow>): (r: seq<Revision>)
    reads rows
    ensures |r| == |rows| && forall i :: 0 <= i < |rows| ==> r[i] == rows[i].View()
  {
    seq(|rows|, i requires 0 <= i < |rows| reads rows => rows[i].View())
  }

  class Tables {
    var workflow: WorkflowRow?
    var revisions: seq<RevisionRow>

    ghost predicate Valid()
      reads this
    {
      forall a, b :: 0 <= a < b < |revisions| ==> revisions[a] != revisions[b]
    }

    ghost function View(): Registry
      reads this, workflow, revisions
    {
      Registry(if workflow == null then None else Some(workflow.View()), Views(revisions))
    }

    constructor ()
      ensures Valid() && View() == EMPTY
    {
      workflow, revisions := null, [];
    }

    /** The queries by version, by draft status, and for the highest version. */
    method ByVersion(v: int) returns (k: nat)
      ensures k == FindVersion(Views(revisions), v)
    {
      k := 0;
      while k < |revisions| && revisions[k].version != v
        invariant k <= |revisions|
        invariant forall j :: 0 <= j < k ==> Views(revisions)[j].version != v
      {
        k := k + 1;
      }
      FirstVersion(Views(revisions), v, k);
    }

    method FirstDraft() returns (k: nat)
      ensures k == FindDraft(Views(revisions))
    {
      k := 0;
      while k < |revisions| && revisions[k].status != Draft
        invariant k <= |revisions|
        invariant forall j :: 0 <= j < k ==> Views(revisions)[j].status != Draft
      {
        k := k + 1;
      }
      FirstDraftIs(Views(revisions), k);
    }

    method Highest(default: int) returns (m: int)
      ensures m == MaxVersion(Views(revisions), default)
    {
      m := default;
      for n := 0 to |revisions|
        invariant m == MaxVersion(Views(revisions)[..n], default)
      {
        var views := Views(revisions);
        assert views[..n + 1][..n] == views[..n];
        m := if n == 0 then revisions[n].version else Max(m, revisions[n].version);
      }
      assert Views(revisions)[..|revisions|] == Views(revisions);
    }

    method Collision(v: int, self: nat) returns (found: bool)
      ensures found == Collides(Views(revisions), v, self)
    {
      for n := 0 to |revisions|
        invariant forall k :: 0 <= k < n && k != self ==> Views(revisions)[k].version != v
      {
        if n != self && revisions[n].version == v {
          assert Views(revisions)[n].version == v;
          return true;
        }
      }
      return false;
    }

    /** ensure_published_revision. */
    method EnsurePublished() returns (k: nat)
      requires Valid() && workflow != null
      modifies this`revisions
      ensures Valid() && k == FindVersion(Views(revisions), workflow.version) && k < |revisions|
      ensures Views(revisions) == Ensured(workflow.View(), old(Views(revisions)))
      ensures forall j :: 0 <= j < |revisions| ==> revisions[j] in old(revisions) || fresh(revisions[j])
    {
      k := ByVersion(workflow.version);
      if k == |revisions| {
        var row := new RevisionRow(workflow.version, Published, workflow.config);
        ghost var before := Views(revisions);
        revisions := revisions + [row];
        assert Views(revisions) == before + [row.View()];
        FirstVersion(Views(revisions), workflow.version, k);
      }
    }

    method ImportDefinition(doc: Document, others: seq<string>) returns (refused: Option<Refusal>)
      requires Valid()
      modifies this, workflow, revisions
      ensures Valid()
      ensures match Import(old(View()), doc, others)
              case Ok(s) => refused == None && View() == s
              case Err(e) => refused == Some(e) && View() == old(View())
    {
      if !Accepts(doc) {
        return Some(Invalid);
      }
      for n := 0 to |others|
        invariant doc.prefix !in others[..n]
      {
        if others[n] == doc.prefix {
          return Some(PrefixTaken);
        }
      }
      if doc.version == None {
        return Some(NoVersion);
      }
      if workflow == null {
        workflow := new WorkflowRow(doc.version.value, doc);
        var added := EnsurePublished();
        return None;
      }
      refused := Upgrade(doc);
    }

    /** The branch for a workflow that exists. */
    method Upgrade(doc: Document) returns (refused: Option<Refusal>)
      requires Valid() && workflow != null && doc.version.Some?
      modifies this`revisions, workflow, revisions
      ensures Valid() && workflow == old(workflow)
      ensures match Upgraded(old(workflow.View()), old(Views(revisions)), Workflow(doc.version.value, doc))
              case Ok(s) => refused == None && View() == s
              case Err(e) => refused == Some(e) && View() == old(View())
    {
      var saved := revisions;
      var prior := EnsurePublished();
      if doc.version.value < workflow.version {
        revisions := saved;
        return Some(OlderVersion);
      }
      if doc.version.value == workflow.version {
        if doc == workflow.config {
          return None;
        }
        revisions := saved;
        return Some(VersionTaken);
      }
      Supersede(prior, doc.version.value, doc);
      return None;
    }

    /** The prior revision is archived and the document becomes the current version. */
    method Supersede(prior: nat, v: int, doc: Document)
      requires Valid() && workflow != null
      requires prior == FindVersion(Views(revisions), workflow.version) && prior < |revisions|
      modifies this`revisions, workflow, revisions[prior]
      ensures Valid() && workflow == old(workflow) && workflow.View() == Workflow(v, doc)
      ensures Views(revisions) == Superseded(old(workflow.View()), old(Views(revisions)), Workflow(v, doc))
    {
      ArchiveRow(prior);
      workflow.version := v;
      workflow.config := doc;
      var current := EnsurePublished();
    }

    method ArchiveRow(k: nat)
      requires Valid() && k < |revisions|
      modifies revisions[k]
      ensures Views(revisions) == (var rs := old(Views(revisions)); rs[k := rs[k].(status := Archived)])
    {
      ghost var rs := Views(revisions);
      var row := revisions[k];
      row.status := Archived;
      assert Views(revisions) == rs[k := rs[k].(status := Archived)];
    }

    method SaveDraftRow(doc: Document) returns (refused: Option<Refusal>)
      requires Valid() && workflow != null
      modifies this`revisions, revisions
      ensures Valid()
      ensures match SaveDraft(old(View()), doc)
              case Ok(s) => refused == None && View() == s
              case Err(e) => refused == Some(e) && View() == old(View())
    {
      if !Accepts(doc) {
        return Some(Invalid);
      }
      var published := EnsurePublished();
      StoreDraft(doc);
      return None;
    }

    method StoreDraft(doc: Document)
      requires Valid() && workflow != null
      modifies this`revisions, revisions
      ensures Valid()
      ensures Views(revisions) == Drafted(workflow.View(), old(Views(revisions)), doc)
    {
      var k := FirstDraft();
      var v := DraftNumber(doc, k);
      PutDraft(k, v, doc.(version := Some(v)));
    }

    method DraftNumber(doc: Document, k: nat) returns (v: int)
      requires workflow != null && k == FindDraft(Views(revisions))
      ensures v == DraftVersion(workflow.View(), Views(revisions), doc)
    {
      v := Max(workflow.version + 1, if doc.version.Some? then doc.version.value else workflow.version + 1);
      var collides := Collision(v, k);
      if collides {
        v := Highest(workflow.version);
        v := v + 1;
      }
    }

    method PutDraft(k: nat, v: int, config: Document)
      requires Valid() && k <= |revisions| && (k < |revisions| ==> revisions[k].status == Draft)
      modifies this`revisions, if k < |revisions| then {revisions[k]} else {}
      ensures Valid()
      ensures Views(revisions)
           == (var rs := old(Views(revisions));
               var draft := Revision(v, Draft, config);
               if k < |rs| then rs[k := draft] else rs + [draft])
    {
      ghost var rs := Views(revisions);
      if k == |revisions| {
        var row := new RevisionRow(v, Draft, config);
        revisions := revisions + [row];
        assert Views(revisions) == rs + [row.View()];
      } else {
        var row := revisions[k];
        row.version := v;
        row.config := config;
        assert Views(revisions) == rs[k := Revision(v, Draft, config)];
      }
    }

    method PublishDraftRow(k: nat) returns (refused: Option<Refusal>)
      requires Valid() && workflow != null && k < |revisions|
      modifies workflow, revisions
      ensures Valid()
      ensures match Publish(old(View()), k)
              case Ok(s) => refused == None && View() == s
              case Err(e) => refused == Some(e) && View() == old(View())
    {
      assert Views(revisions)[k] == revisions[k].View();
      if revisions[k].status != Draft {
        return Some(NotADraft);
      }
      if !Accepts(revisions[k].config) {
        return Some(Invalid);
      }
      var v := PublishNumber(k);
      MakeCurrent(k, v, revisions[k].config.(version := Some(v)));
      return None;
    }

    method PublishNumber(k: nat) returns (v: int)
      requires workflow != null && k < |revisions|
      ensures v == PublishVersion(workflow.View(), Views(revisions), k)
    {
      assert Views(revisions)[k] == revisions[k].View();
      v := Max(workflow.version + 1, revisions[k].version);
      var collides := Collision(v, k);
      if collides {
        v := Highest(workflow.version);
        v := v + 1;
      }
    }

    method MakeCurrent(k: nat, v: int, config: Document)
      requires Valid() && workflow != null && k < |revisions|
      modifies workflow, revisions
      ensures workflow.View() == Workflow(v, config)
      ensures Views(revisions) == ArchiveAll(old(Views(revisions)))[k := Revision(v, Published, config)]
    {
      ghost var rs := Views(revisions);
      workflow.version := v;
      workflow.config := config;
      assert Views(revisions) == rs;
      ArchivePublished();
      var draft := revisions[k];
      draft.version := v;
      draft.config := config;
      draft.status := Published;
      assert Views(revisions) == ArchiveAll(rs)[k := Revision(v, Published, config)];
    }

    /** The loop over the published rows. */
    method ArchivePublished()
      requires Valid()
      modifies revisions
      ensures Views(revisions) == ArchiveAll(old(Views(revisions)))
    {
      for n := 0 to |revisions|
        invariant forall j :: 0 <= j < n ==> revisions[j].View() == ArchiveAll(old(Views(revisions)))[j]
        invariant forall j :: n <= j < |revisions| ==> revisions[j].View() == old(revisions[j].View())
      {
        if revisions[n].status == Published {
          revisions[n].status := Archived;
        }
      }
    }
  }

  lemma FirstVersion(rs: seq<Revision>, v: int, k: nat)
    requires k <= |rs| && (k < |rs| ==> rs[k].version == v)
    requires forall j :: 0 <= j < k ==> rs[j].version != v
    ensures FindVersion(rs, v) == k
  {
  }

  lemma FirstDraftIs(rs: seq<Revision>, k: nat)
    requires k <= |rs| && (k < |rs| ==> rs[k].status == Draft)
    requires forall j :: 0 <= j < k ==> rs[j].status != Draft
    ensures FindDraft(rs) == k
  {
  }
}
