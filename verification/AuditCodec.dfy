/** A codec that meets every assumption made of SHA-256 and of the JSON encoding, so that the
    theorems of AuditChain are about something. */
module AuditCodec {
  import opened Common
  import opened AuditChain

  /** Digits that mark their own end: n ones and a zero. */
  function Count(n: nat): string {
    if n == 0 then "0" else "1" + Count(n - 1)
  }

  /** What is written in front can be told apart from what follows. */
  lemma {:induction false} CountSplits(a: nat, b: nat, x: string, y: string)
    requires Count(a) + x == Count(b) + y
    ensures a == b && x == y
  {
    var left, right := Count(a) + x, Count(b) + y;
    assert left[0] == Count(a)[0] && right[0] == Count(b)[0];
    if a > 0 && b > 0 {
      assert left[1..] == Count(a - 1) + x && right[1..] == Count(b - 1) + y;
      CountSplits(a - 1, b - 1, x, y);
    } else {
      assert left[1..] == x || a > 0;
      assert right[1..] == y || b > 0;
    }
  }

  function Text(s: string): string {
    Count(|s|) + s
  }

  lemma TextSplits(s: string, t: string, x: string, y: string)
    requires Text(s) + x == Text(t) + y
    ensures s == t && x == y
  {
    assert Count(|s|) + (s + x) == Text(s) + x;
    assert Count(|t|) + (t + y) == Text(t) + y;
    CountSplits(|s|, |t|, s + x, t + y);
    assert (s + x)[..|s|] == s && (t + y)[..|t|] == t;
    assert (s + x)[|s|..] == x && (t + y)[|t|..] == y;
  }

  /** Integers as naturals: negative ones odd. */
  function Number(n: int): string {
    Count(if n < 0 then -2 * n - 1 else 2 * n)
  }

  lemma NumberSplits(a: int, b: int, x: string, y: string)
    requires Number(a) + x == Number(b) + y
    ensures a == b && x == y
  {
    CountSplits(if a < 0 then -2 * a - 1 else 2 * a, if b < 0 then -2 * b - 1 else 2 * b, x, y);
  }

  function Pairs(items: seq<(string, string)>): string {
    if items == [] then "" else Text(items[0].0) + (Text(items[0].1) + Pairs(items[1..]))
  }

  lemma {:induction false} PairsSplit(a: seq<(string, string)>, b: seq<(string, string)>, x: string, y: string)
    requires |a| == |b| && Pairs(a) + x == Pairs(b) + y
    ensures a == b && x == y
  {
    if a != [] {
      var p, q := a[0], b[0];
      assert Text(p.0) + (Text(p.1) + (Pairs(a[1..]) + x)) == Pairs(a) + x;
      assert Text(q.0) + (Text(q.1) + (Pairs(b[1..]) + y)) == Pairs(b) + y;
      TextSplits(p.0, q.0, Text(p.1) + (Pairs(a[1..]) + x), Text(q.1) + (Pairs(b[1..]) + y));
      TextSplits(p.1, q.1, Pairs(a[1..]) + x, Pairs(b[1..]) + y);
      PairsSplit(a[1..], b[1..], x, y);
      assert a == [p] + a[1..] && b == [q] + b[1..];
    } else {
      assert "" + x == x && "" + y == y;
    }
  }

  function Write(d: Details): string {
    Count(|d.items|) + Pairs(d.items)
  }

  lemma WriteSplits(d: Details, e: Details, x: string, y: string)
    requires Write(d) + x == Write(e) + y
    ensures d == e && x == y
  {
    assert Count(|d.items|) + (Pairs(d.items) + x) == Write(d) + x;
    assert Count(|e.items|) + (Pairs(e.items) + y) == Write(e) + y;
    CountSplits(|d.items|, |e.items|, Pairs(d.items) + x, Pairs(e.items) + y);
    PairsSplit(d.items, e.items, x, y);
  }

  ghost function Read(text: string): Details {
    if d :| Write(d) == text then d else Details([])
  }

  lemma ReadsBack(d: Details)
    ensures Read(Write(d)) == d
  {
    var e := Read(Write(d));
    assert Write(d) + "" == Write(e) + "";
    WriteSplits(d, e, "", "");
  }

  function Actor(a: Option<nat>): int {
    if a == None then -1 else a.value
  }

  function Dumps(p: Payload): string {
    Number(p.caseId) + (Number(Actor(p.actor)) + (Number(p.createdAt)
    + (Text(p.kind) + (Text(p.summary) + Write(p.details)))))
  }

  lemma DumpsDiffer(p: Payload, q: Payload)
    requires Dumps(p) == Dumps(q)
    ensures p == q
  {
    var p5, q5 := Write(p.details), Write(q.details);
    var p4, q4 := Text(p.summary) + p5, Text(q.summary) + q5;
    var p3, q3 := Text(p.kind) + p4, Text(q.kind) + q4;
    var p2, q2 := Number(p.createdAt) + p3, Number(q.createdAt) + q3;
    var p1, q1 := Number(Actor(p.actor)) + p2, Number(Actor(q.actor)) + q2;
    NumberSplits(p.caseId, q.caseId, p1, q1);
    NumberSplits(Actor(p.actor), Actor(q.actor), p2, q2);
    NumberSplits(p.createdAt, q.createdAt, p3, q3);
    TextSplits(p.kind, q.kind, p4, q4);
    TextSplits(p.summary, q.summary, p5, q5);
    assert p5 + "" == q5 + "";
    WriteSplits(p.details, q.details, "", "");
  }

  /** A digest without collisions and without '|': two characters for each one. */
  function Digest(s: string): string {
    if s == "" then "0" else (if s[0] == '|' then "10" else ['0', s[0]]) + Digest(s[1..])
  }

  lemma {:induction false} DigestIsClean(s: string)
    ensures Digest(s) != "" && '|' !in Digest(s)
  {
    if s != "" {
      DigestIsClean(s[1..]);
    }
  }

  lemma {:induction false} DigestsDiffer(s: string, t: string)
    requires Digest(s) == Digest(t)
    ensures s == t
  {
    if s == "" || t == "" {
      DigestLength(s);
      DigestLength(t);
    } else {
      assert Digest(s)[2..] == Digest(s[1..]) && Digest(t)[2..] == Digest(t[1..]);
      assert Digest(s)[0] == Digest(t)[0] && Digest(s)[1] == Digest(t)[1];
      DigestsDiffer(s[1..], t[1..]);
      assert s == [s[0]] + s[1..] && t == [t[0]] + t[1..];
    }
  }

  lemma {:induction false} DigestLength(s: string)
    ensures |Digest(s)| == 2 * |s| + 1
  {
    if s != "" {
      DigestLength(s[1..]);
    }
  }

  ghost function Sample(): Codec {
    Codec(s => Digest(s), p => Dumps(p), d => Write(d), text => Read(text))
  }

  /** The assumptions can be met. */
  lemma SomeCodecIsTrusted()
    ensures Trusted(Sample())
  {
    var codec := Sample();
    forall x, y | codec.sha(x) == codec.sha(y) ensures x == y {
      DigestsDiffer(x, y);
    }
    forall x ensures codec.sha(x) != "" && '|' !in codec.sha(x) {
      DigestIsClean(x);
    }
    forall p, q | codec.dumps(p) == codec.dumps(q) ensures p == q {
      DumpsDiffer(p, q);
    }
    forall d ensures codec.read(codec.write(d)) == d {
      ReadsBack(d);
    }
  }
}
