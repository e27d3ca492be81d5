/** The hash-linked activity log (app/services/audit.py:22-131): what appending keeps and what
    verification can and cannot see. */
module AuditChain {
  import opened Common

  datatype Details = Details(items: seq<(string, string)>)

  /** The dictionary that is hashed. */
  datatype Payload = Payload(caseId: nat, actor: Option<nat>, kind: string, summary: string,
                             details: Details, createdAt: int)

  /** A row of the activity table; `details` is stored as JSON text. */
  datatype Activity = Activity(id: nat, caseId: nat, actor: Option<nat>, kind: string, summary: string,
                               detailsJson: string, createdAt: int, previousHash: string, entryHash: string)

  /** SHA-256 as hexadecimal text and the JSON encoding, as functions. */
  datatype Codec = Codec(sha: string -> string, dumps: Payload -> string,
                         write: Details -> string, read: string -> Details)

  /** What is assumed of them: no collisions, no empty digest, no '|' in a digest, and details
      that survive storage. */
  ghost predicate Trusted(codec: Codec) {
    && (forall x, y :: codec.sha(x) == codec.sha(y) ==> x == y)
    && (forall x :: codec.sha(x) != "" && '|' !in codec.sha(x))
    && (forall p, q :: codec.dumps(p) == codec.dumps(q) ==> p == q)
    && (forall d :: codec.read(codec.write(d)) == d)
  }

  function Hash(codec: Codec, previous: string, p: Payload): string {
    codec.sha(previous + "|" + codec.dumps(p))
  }

  /** The payload verification rebuilds from a row. */
  function PayloadOf(codec: Codec, e: Activity): Payload {
    Payload(e.caseId, e.actor, e.kind, e.summary, codec.read(e.detailsJson), e.createdAt)
  }

  // ---------------------------------------------------------------- appending

  /** The rows of one case, in id order. */
  function ChainOf(rows: seq<Activity>, c: nat): seq<Activity> {
    if rows == [] then []
    else ChainOf(rows[..|rows| - 1], c) + (if rows[|rows| - 1].caseId == c then [rows[|rows| - 1]] else [])
  }

  function LatestHash(chain: seq<Activity>): string {
    if chain == [] then "" else chain[|chain| - 1].entryHash
  }

  /** The columns of entry e say what was to be recorded. */
  ghost predicate Recorded(codec: Codec, p: Payload, e: Activity) {
    && e.caseId == p.caseId && e.actor == p.actor && e.kind == p.kind && e.summary == p.summary
    && codec.read(e.detailsJson) == p.details && e.createdAt == p.createdAt
  }

  /** Two entries say the same in every column that is evidence. */
  ghost predicate SameColumns(codec: Codec, a: Activity, b: Activity) {
    && a.caseId == b.caseId && a.actor == b.actor && a.kind == b.kind && a.summary == b.summary
    && codec.read(a.detailsJson) == codec.read(b.detailsJson) && a.createdAt == b.createdAt
  }

  function EntryFor(codec: Codec, rows: seq<Activity>, p: Payload): Activity {
    var previous := LatestHash(ChainOf(rows, p.caseId));
    Activity(|rows|, p.caseId, p.actor, p.kind, p.summary, codec.write(p.details), p.createdAt,
             previous, Hash(codec, previous, p))
  }

  // ---------------------------------------------------------------- verifying

  datatype Problem =
    | PreviousHashMismatch(id: nat, expected: string, actual: string)
    | EntryHashMismatch(id: nat, expected: string, actual: string)

  /** The running hash when entry k is checked. */
  function HashBefore(chain: seq<Activity>, k: nat): string
    requires k <= |chain|
  {
    if k == 0 then "" else chain[k - 1].entryHash
  }

  /** What is reported about entry k. */
  function IssuesAt(codec: Codec, chain: seq<Activity>, k: nat): seq<Problem>
    requires k < |chain|
  {
    var e, previous := chain[k], HashBefore(chain, k);
    var expected := Hash(codec, previous, PayloadOf(codec, e));
    (if e.previousHash != previous then [PreviousHashMismatch(e.id, previous, e.previousHash)] else [])
    + (if e.entryHash != expected then [EntryHashMismatch(e.id, expected, e.entryHash)] else [])
  }

  /** What is reported about the first n entries. */
  function Issues(codec: Codec, chain: seq<Activity>, n: nat): seq<Problem>
    requires n <= |chain|
  {
    if n == 0 then [] else Issues(codec, chain, n - 1) + IssuesAt(codec, chain, n - 1)
  }

  ghost predicate Valid(codec: Codec, chain: seq<Activity>) {
    forall k :: 0 <= k < |chain| ==> IssuesAt(codec, chain, k) == []
  }

  lemma {:induction false} NoIssuesIffValid(codec: Codec, chain: seq<Activity>, n: nat)
    requires n <= |chain|
    ensures Issues(codec, chain, n) == [] <==> forall k :: 0 <= k < n ==> IssuesAt(codec, chain, k) == []
  {
    if n > 0 {
      NoIssuesIffValid(codec, chain, n - 1);
      BothEmpty(Issues(codec, chain, n - 1), IssuesAt(codec, chain, n - 1));
    }
  }

  lemma BothEmpty<T>(a: seq<T>, b: seq<T>)
    ensures a + b == [] <==> a == [] && b == []
  {
    assert |a + b| == |a| + |b|;
  }

  class AuditLog {
    const codec: Codec
    var rows: seq<Activity>

    constructor (codec: Codec)
      ensures this.codec == codec && rows == []
    {
      this.codec, rows := codec, [];
    }

    /** append_activity: every chain that was valid stays valid, and only this case's grows. */
    method Append(p: Payload) returns (entry: Activity)
      requires Trusted(codec)
      requires forall c :: Valid(codec, ChainOf(rows, c))
      modifies this`rows
      ensures rows == old(rows) + [entry]
      ensures entry.id == |old(rows)| && entry.caseId == p.caseId && entry.actor == p.actor && entry.kind == p.kind
      ensures entry.summary == p.summary && codec.read(entry.detailsJson) == p.details && entry.createdAt == p.createdAt
      ensures entry.previousHash == LatestHash(ChainOf(old(rows), p.caseId))
      ensures forall c :: Valid(codec, ChainOf(rows, c))
      ensures forall c :: ChainOf(rows, c) == ChainOf(old(rows), c) + (if c == p.caseId then [entry] else [])
    {
      var previous := LatestOf(p.caseId);
      entry := Activity(|rows|, p.caseId, p.actor, p.kind, p.summary, codec.write(p.details), p.createdAt,
                        previous, Hash(codec, previous, p));
      AppendKeepsChains(codec, rows, p);
      rows := rows + [entry];
    }

    /** The query for the case's last entry. */
    method LatestOf(c: nat) returns (hash: string)
      ensures hash == LatestHash(ChainOf(rows, c))
    {
      hash := "";
      for n := 0 to |rows|
        invariant hash == LatestHash(ChainOf(rows[..n], c))
      {
        assert rows[..n + 1][..n] == rows[..n];
        if rows[n].caseId == c {
          hash := rows[n].entryHash;
        }
      }
      assert rows[..|rows|] == rows;
    }

    /** verify_case_audit_chain. */
    method Verify(c: nat) returns (valid: bool, count: nat, latest: string, problems: seq<Problem>)
      ensures var chain := ChainOf(rows, c);
        && problems == Issues(codec, chain, |chain|)
        && (valid <==> Valid(codec, chain))
        && count == |chain| && latest == LatestHash(chain)
    {
      var entries := ChainOf(rows, c);
      latest, problems := "", [];
      for n := 0 to |entries|
        invariant latest == HashBefore(entries, n)
        invariant problems == Issues(codec, entries, n)
      {
        var e := entries[n];
        var expected := Hash(codec, latest, PayloadOf(codec, e));
        var here: seq<Problem> := [];
        if e.previousHash != latest {
          here := here + [PreviousHashMismatch(e.id, latest, e.previousHash)];
        }
        if e.entryHash != expected {
          here := here + [EntryHashMismatch(e.id, expected, e.entryHash)];
        }
        assert here == IssuesAt(codec, entries, n);
        problems := problems + here;
        latest := e.entryHash;
      }
      NoIssuesIffValid(codec, entries, |entries|);
      return problems == [], |entries|, latest, problems;
    }
  }

  lemma ChainGrows(rows: seq<Activity>, e: Activity, c: nat)
    ensures ChainOf(rows + [e], c) == ChainOf(rows, c) + (if e.caseId == c then [e] else [])
  {
    assert (rows + [e])[..|rows|] == rows;
  }

  lemma AppendKeepsChains(codec: Codec, rows: seq<Activity>, p: Payload)
    requires Trusted(codec)
    requires forall c :: Valid(codec, ChainOf(rows, c))
    ensures var r := rows + [EntryFor(codec, rows, p)];
      && (forall c :: Valid(codec, ChainOf(r, c)))
      && (forall c :: ChainOf(r, c) == ChainOf(rows, c) + (if c == p.caseId then [EntryFor(codec, rows, p)] else []))
      && Recorded(codec, p, EntryFor(codec, rows, p))
  {
    var e := EntryFor(codec, rows, p);
    forall c
      ensures Valid(codec, ChainOf(rows + [e], c))
      ensures ChainOf(rows + [e], c) == ChainOf(rows, c) + (if c == p.caseId then [e] else [])
    {
      ChainGrows(rows, e, c);
      if c == p.caseId {
        ValidExtends(codec, ChainOf(rows, c), e, p);
      } else {
        assert ChainOf(rows + [e], c) == ChainOf(rows, c);
      }
    }
  }

  lemma ValidExtends(codec: Codec, chain: seq<Activity>, e: Activity, p: Payload)
    requires Trusted(codec) && Valid(codec, chain)
    requires e.previousHash == LatestHash(chain) && e.entryHash == Hash(codec, LatestHash(chain), p)
    requires PayloadOf(codec, e) == p
    ensures Valid(codec, chain + [e])
  {
    var r := chain + [e];
    forall k | 0 <= k < |r| ensures IssuesAt(codec, r, k) == [] {
      assert HashBefore(r, k) == HashBefore(chain, k);
      if k < |chain| {
        assert r[k] == chain[k] && IssuesAt(codec, chain, k) == [];
      }
    }
  }

  /** Every history of appends, over however many cases. */
  function AppendAll(codec: Codec, ps: seq<Payload>): seq<Activity> {
    if ps == [] then []
    else
      var rows := AppendAll(codec, ps[..|ps| - 1]);
      rows + [EntryFor(codec, rows, ps[|ps| - 1])]
  }

  /** Any interleaving of appends over many cases records what was to be recorded, in order, and
      leaves every chain valid. */
  lemma {:induction false} AppendsStayValid(codec: Codec, ps: seq<Payload>)
    requires Trusted(codec)
    ensures forall c :: Valid(codec, ChainOf(AppendAll(codec, ps), c))
    ensures var rows := AppendAll(codec, ps);
      |rows| == |ps| && forall k :: 0 <= k < |ps| ==> rows[k].id == k && Recorded(codec, ps[k], rows[k])
  {
    if ps != [] {
      AppendsStayValid(codec, ps[..|ps| - 1]);
      AppendKeepsChains(codec, AppendAll(codec, ps[..|ps| - 1]), ps[|ps| - 1]);
    }
  }

  // ---------------------------------------------------------------- evidence

  /** How many characters come before the first '|'. */
  function BeforeBar(s: string): nat {
    if s == [] || s[0] == '|' then 0 else 1 + BeforeBar(s[1..])
  }

  lemma {:induction false} BarIsFound(a: string, rest: string)
    requires '|' !in a
    ensures BeforeBar(a + "|" + rest) == |a|
  {
    var s := a + "|" + rest;
    if a != [] {
      BarIsFound(a[1..], rest);
      assert s[1..] == a[1..] + "|" + rest;
    }
  }

  /** The hashed material can be taken apart again. */
  lemma MaterialSplits(codec: Codec, a: string, p: Payload, b: string, q: Payload)
    requires Trusted(codec) && '|' !in a && '|' !in b
    requires Hash(codec, a, p) == Hash(codec, b, q)
    ensures a == b && p == q
  {
    var x, y := a + "|" + codec.dumps(p), b + "|" + codec.dumps(q);
    assert x == y;
    BarIsFound(a, codec.dumps(p));
    BarIsFound(b, codec.dumps(q));
    assert x[..|a|] == a && y[..|b|] == b;
    assert x[|a| + 1..] == codec.dumps(p) && y[|b| + 1..] == codec.dumps(q);
  }

  /** Valid means: every entry carries the hash of the one before it, and the digest of that hash
      and of its own columns. */
  lemma ValidByColumns(codec: Codec, chain: seq<Activity>)
    ensures Valid(codec, chain) <==> forall k :: 0 <= k < |chain| ==>
      var e := chain[k];
      var before := if k == 0 then "" else chain[k - 1].entryHash;
      var p := Payload(e.caseId, e.actor, e.kind, e.summary, codec.read(e.detailsJson), e.createdAt);
      e.previousHash == before && e.entryHash == codec.sha(before + "|" + codec.dumps(p))
  {
    forall k | 0 <= k < |chain|
      ensures var e := chain[k];
        var before := if k == 0 then "" else chain[k - 1].entryHash;
        var p := Payload(e.caseId, e.actor, e.kind, e.summary, codec.read(e.detailsJson), e.createdAt);
        IssuesAt(codec, chain, k) == [] <==>
        e.previousHash == before && e.entryHash == codec.sha(before + "|" + codec.dumps(p))
    {
    }
  }

  lemma EntryIsLinked(codec: Codec, chain: seq<Activity>, k: nat)
    requires Valid(codec, chain) && k < |chain|
    ensures chain[k].previousHash == HashBefore(chain, k)
    ensures chain[k].entryHash == Hash(codec, HashBefore(chain, k), PayloadOf(codec, chain[k]))
  {
    assert IssuesAt(codec, chain, k) == [];
  }

  lemma NoBarBefore(codec: Codec, chain: seq<Activity>, k: nat)
    requires Trusted(codec) && Valid(codec, chain) && k <= |chain|
    ensures '|' !in HashBefore(chain, k)
    ensures k > 0 ==> HashBefore(chain, k) != ""
  {
    if k > 0 {
      EntryIsLinked(codec, chain, k - 1);
    }
  }

  lemma PrefixIsValid(codec: Codec, chain: seq<Activity>, n: nat)
    requires Valid(codec, chain) && n <= |chain|
    ensures Valid(codec, chain[..n])
  {
    forall k | 0 <= k < n ensures IssuesAt(codec, chain[..n], k) == [] {
      assert IssuesAt(codec, chain, k) == [];
      assert HashBefore(chain[..n], k) == HashBefore(chain, k);
    }
  }

  /** Two valid chains with the same latest hash tell the same history, entry for entry. */
  lemma {:induction false} SameHashSameHistory(codec: Codec, a: seq<Activity>, b: seq<Activity>)
    requires Trusted(codec) && Valid(codec, a) && Valid(codec, b)
    requires LatestHash(a) == LatestHash(b)
    ensures |a| == |b|
    ensures forall k :: 0 <= k < |a| ==>
      && SameColumns(codec, a[k], b[k])
      && a[k].previousHash == b[k].previousHash && a[k].entryHash == b[k].entryHash
  {
    NoBarBefore(codec, a, |a|);
    NoBarBefore(codec, b, |b|);
    if a != [] && b != [] {
      var m, n := |a| - 1, |b| - 1;
      EntryIsLinked(codec, a, m);
      EntryIsLinked(codec, b, n);
      NoBarBefore(codec, a, m);
      NoBarBefore(codec, b, n);
      MaterialSplits(codec, HashBefore(a, m), PayloadOf(codec, a[m]), HashBefore(b, n), PayloadOf(codec, b[n]));
      PrefixIsValid(codec, a, m);
      PrefixIsValid(codec, b, n);
      SameHashSameHistory(codec, a[..m], b[..n]);
      assert forall k :: 0 <= k < m ==> a[k] == a[..m][k] && b[k] == b[..n][k];
    }
  }

  /** Same rows except for the payload columns of some entries. */
  ghost predicate OnlyPayloadsEdited(a: seq<Activity>, b: seq<Activity>) {
    |a| == |b| && forall k :: 0 <= k < |a| ==>
      b[k].id == a[k].id && b[k].previousHash == a[k].previousHash && b[k].entryHash == a[k].entryHash
  }

  /** Editing payload columns of any set of entries is reported as an entry-hash mismatch on
      exactly the entries in which a column changed, and as nothing else. */
  lemma EditsAreLocated(codec: Codec, a: seq<Activity>, b: seq<Activity>, k: nat)
    requires Trusted(codec) && Valid(codec, a) && OnlyPayloadsEdited(a, b) && k < |a|
    ensures IssuesAt(codec, b, k) == [] <==> SameColumns(codec, a[k], b[k])
    ensures IssuesAt(codec, b, k) != [] ==>
      var issues := IssuesAt(codec, b, k);
      && |issues| == 1 && issues[0].EntryHashMismatch?
      && issues[0].id == a[k].id && issues[0].actual == a[k].entryHash && issues[0].expected != a[k].entryHash
  {
    EntryIsLinked(codec, a, k);
    NoBarBefore(codec, a, k);
    assert HashBefore(b, k) == HashBefore(a, k);
    if b[k].entryHash == Hash(codec, HashBefore(b, k), PayloadOf(codec, b[k])) {
      MaterialSplits(codec, HashBefore(a, k), PayloadOf(codec, a[k]), HashBefore(b, k), PayloadOf(codec, b[k]));
    }
  }

  /** No entry of a valid chain has the hash of the one before it. */
  lemma {:induction false} NeighboursDiffer(codec: Codec, chain: seq<Activity>, k: nat)
    requires Trusted(codec) && Valid(codec, chain) && k < |chain|
    ensures chain[k].entryHash != HashBefore(chain, k)
  {
    EntryIsLinked(codec, chain, k);
    if k > 0 && chain[k].entryHash == chain[k - 1].entryHash {
      EntryIsLinked(codec, chain, k - 1);
      NoBarBefore(codec, chain, k);
      NoBarBefore(codec, chain, k - 1);
      MaterialSplits(codec, HashBefore(chain, k), PayloadOf(codec, chain[k]),
                     HashBefore(chain, k - 1), PayloadOf(codec, chain[k - 1]));
      NeighboursDiffer(codec, chain, k - 1);
    }
  }

  function Without(chain: seq<Activity>, j: nat): seq<Activity>
    requires j < |chain|
  {
    chain[..j] + chain[j + 1..]
  }

  lemma DeletionElsewhere(codec: Codec, chain: seq<Activity>, j: nat, k: nat)
    requires Valid(codec, chain) && j < |chain| && k < |chain| - 1 && k != j
    ensures IssuesAt(codec, Without(chain, j), k) == []
  {
    var r := Without(chain, j);
    if k < j {
      assert r[k] == chain[k] && HashBefore(r, k) == HashBefore(chain, k);
      assert IssuesAt(codec, chain, k) == [];
    } else {
      assert r[k] == chain[k + 1] && HashBefore(r, k) == HashBefore(chain, k + 1);
      assert IssuesAt(codec, chain, k + 1) == [];
    }
  }

  /** Deleting entry j is reported at exactly its successor, with both kinds of mismatch. */
  lemma DeletionIsLocated(codec: Codec, chain: seq<Activity>, j: nat)
    requires Trusted(codec) && Valid(codec, chain) && j < |chain| - 1
    ensures var r := Without(chain, j);
      && (forall k :: 0 <= k < |r| && k != j ==> IssuesAt(codec, r, k) == [])
      && |IssuesAt(codec, r, j)| == 2
      && IssuesAt(codec, r, j)[0] == PreviousHashMismatch(chain[j + 1].id, HashBefore(chain, j), chain[j].entryHash)
      && IssuesAt(codec, r, j)[1].EntryHashMismatch? && IssuesAt(codec, r, j)[1].id == chain[j + 1].id
  {
    var r := Without(chain, j);
    forall k | 0 <= k < |r| && k != j ensures IssuesAt(codec, r, k) == [] {
      DeletionElsewhere(codec, chain, j, k);
    }
    assert r[j] == chain[j + 1] && HashBefore(r, j) == HashBefore(chain, j);
    EntryIsLinked(codec, chain, j + 1);
    NeighboursDiffer(codec, chain, j);
    NoBarBefore(codec, chain, j);
    NoBarBefore(codec, chain, j + 1);
    if Hash(codec, HashBefore(r, j), PayloadOf(codec, r[j])) == r[j].entryHash {
      MaterialSplits(codec, HashBefore(chain, j), PayloadOf(codec, chain[j + 1]),
                     HashBefore(chain, j + 1), PayloadOf(codec, chain[j + 1]));
    }
  }

  /** A deletion goes unnoticed exactly when it removes the last entry. */
  lemma DeletionUnnoticedIffLast(codec: Codec, chain: seq<Activity>, j: nat)
    requires Trusted(codec) && Valid(codec, chain) && j < |chain|
    ensures Valid(codec, Without(chain, j)) <==> j == |chain| - 1
  {
    if j == |chain| - 1 {
      assert Without(chain, j) == chain[..j];
      PrefixIsValid(codec, chain, j);
    } else {
      DeletionIsLocated(codec, chain, j);
    }
  }
}
