/** Normalisation of a queue's rate limits and the keys of the resulting rules. */
module RuleKeys {
  import opened Prelude
  import opened Strings

  datatype Scope = Local | Global

  datatype KeyBy = ByQueue | ByKind | ByPipeline | ByTag

  datatype Mode = SmoothMode | FixedWindowMode

  /** A configured limit, before and after defaults are filled in. */
  datatype Limit = Limit(limit: int, period: int, burst: int, scope: Scope, keyBy: KeyBy, tagPrefix: string, mode: Mode)

  function ScopeCode(s: Scope): int {
    if s.Local? then 0 else 1
  }

  function KeyCode(k: KeyBy): int {
    match k
    case ByQueue => 0
    case ByKind => 1
    case ByPipeline => 2
    case ByTag => 3
  }

  function ModeCode(m: Mode): int {
    if m.SmoothMode? then 0 else 1
  }

  function Normalize(c: Limit): Limit {
    var period := if c.period <= 0 then SECOND else c.period;
    var burst := Min(Max(c.burst, 1), c.limit);
    c.(period := period, burst := burst)
  }

  function Interval(n: Limit): int
    requires n.limit > 0
  {
    Max(n.period / n.limit, 1)
  }

  // The signature is built from its end, so that its parts have names.

  function ModePart(n: Limit): string {
    n.tagPrefix + ":" + Itoa(ModeCode(n.mode))
  }

  function KeyPart(n: Limit): string {
    Itoa(KeyCode(n.keyBy)) + ":" + ModePart(n)
  }

  function ScopePart(n: Limit): string {
    Itoa(ScopeCode(n.scope)) + ":" + KeyPart(n)
  }

  function BurstPart(n: Limit): string {
    Itoa(n.burst) + ":" + ScopePart(n)
  }

  function PeriodPart(n: Limit): string {
    Itoa(n.period) + ":" + BurstPart(n)
  }

  function Signature(n: Limit): string {
    Itoa(n.limit) + ":" + PeriodPart(n)
  }

  lemma FieldInjective(a: int, x: string, b: int, y: string)
    requires Itoa(a) + ":" + x == Itoa(b) + ":" + y
    ensures a == b && x == y
  {
    JoinInjective(Itoa(a), x, Itoa(b), y, ':');
    ItoaInjective(a, b);
  }

  lemma ModePartInjective(m: Limit, n: Limit)
    requires ModePart(m) == ModePart(n)
    ensures m.tagPrefix == n.tagPrefix && m.mode == n.mode
  {
    var a, b := Itoa(ModeCode(m.mode)), Itoa(ModeCode(n.mode));
    AfterLastOf(m.tagPrefix, ':', a);
    AfterLastOf(n.tagPrefix, ':', b);
    ItoaInjective(ModeCode(m.mode), ModeCode(n.mode));
    assert ModePart(m)[..|ModePart(m)| - |a| - 1] == m.tagPrefix;
    assert ModePart(n)[..|ModePart(n)| - |b| - 1] == n.tagPrefix;
  }

  /** Two limits share a signature only if they are the same limit, although the tag
      prefix may itself contain the separator. */
  lemma SignatureInjective(m: Limit, n: Limit)
    ensures Signature(m) == Signature(n) <==> m == n
  {
    if Signature(m) == Signature(n) {
      FieldInjective(m.limit, PeriodPart(m), n.limit, PeriodPart(n));
      FieldInjective(m.period, BurstPart(m), n.period, BurstPart(n));
      FieldInjective(m.burst, ScopePart(m), n.burst, ScopePart(n));
      FieldInjective(ScopeCode(m.scope), KeyPart(m), ScopeCode(n.scope), KeyPart(n));
      FieldInjective(KeyCode(m.keyBy), ModePart(m), KeyCode(n.keyBy), ModePart(n));
      ModePartInjective(m, n);
    }
  }

  // ---- digests ----

  /** The text that is hashed for a rule. */
  function RuleText(queue: string, n: Limit): string {
    queue + "\0" + Signature(n)
  }

  /** All that is assumed of the hexadecimal digest: it never contains the separator. */
  ghost predicate Hexadecimal(hash: string -> string) {
    forall x :: ':' !in hash(x)
  }

  /** Two texts collide: they differ and have the same digest. */
  predicate Collide(hash: string -> string, x: string, y: string) {
    x != y && hash(x) == hash(y)
  }

  /** No two rules of the list have colliding texts. */
  ghost predicate CollisionFree(hash: string -> string, queue: string, rules: seq<Limit>) {
    forall m, n :: m in rules && n in rules ==> !Collide(hash, RuleText(queue, m), RuleText(queue, n))
  }

  function RuleKey(hash: string -> string, queue: string, n: Limit): string {
    "goncordia:rate:" + hash(RuleText(queue, n))
  }

  /** The key of a rule for one job; `value` is the job's kind, pipeline or tag. */
  function RowKey(hash: string -> string, queue: string, n: Limit, value: string): string {
    var key := RuleKey(hash, queue, n);
    if n.keyBy.ByQueue? then key else key + ":" + hash(key + "\0" + value)
  }

  /** The rule's digest can be read off the key, whatever the job. */
  lemma RowKeyShowsDigest(hash: string -> string, queue: string, n: Limit, value: string)
    requires Hexadecimal(hash)
    ensures var prefix := "goncordia:rate:"; var key := RowKey(hash, queue, n, value);
      |key| >= |prefix| && UpTo(key[|prefix|..], ':') == hash(RuleText(queue, n))
  {
    var prefix, digest := "goncordia:rate:", hash(RuleText(queue, n));
    var key := RowKey(hash, queue, n, value);
    if n.keyBy.ByQueue? {
      assert key[|prefix|..] == digest;
      UpToAll(digest, ':');
    } else {
      var rest := hash(RuleKey(hash, queue, n) + "\0" + value);
      assert key[|prefix|..] == digest + ":" + rest;
      UpToOf(digest, ':', rest);
    }
  }

  lemma RuleTextInjective(queue: string, m: Limit, n: Limit)
    ensures RuleText(queue, m) == RuleText(queue, n) <==> m == n
  {
    assert RuleText(queue, m)[|queue| + 1..] == Signature(m) && RuleText(queue, n)[|queue| + 1..] == Signature(n);
    SignatureInjective(m, n);
  }

  /** Different rules of one queue share a limiter state for some jobs only through a
      collision of the digest on their own texts. */
  lemma RowKeysDistinct(hash: string -> string, queue: string, m: Limit, n: Limit, mv: string, nv: string)
    requires Hexadecimal(hash) && m != n
    ensures RowKey(hash, queue, m, mv) == RowKey(hash, queue, n, nv) ==>
      Collide(hash, RuleText(queue, m), RuleText(queue, n))
  {
    RowKeyShowsDigest(hash, queue, m, mv);
    RowKeyShowsDigest(hash, queue, n, nv);
    RuleTextInjective(queue, m, n);
  }

  /** A digest as assumed, without any collision: every character becomes two. */
  function Spread(x: string): string {
    if |x| == 0 then "" else (if x[0] == ':' then "ab" else [x[0], 'a']) + Spread(x[1..])
  }

  lemma {:induction false} SpreadHasNoColon(x: string)
    ensures ':' !in Spread(x)
  {
    if |x| > 0 {
      SpreadHasNoColon(x[1..]);
    }
  }

  lemma {:induction false} SpreadInjective(x: string, y: string)
    requires Spread(x) == Spread(y)
    ensures x == y
  {
    if |x| > 0 && |y| > 0 {
      assert Spread(x)[2..] == Spread(x[1..]) && Spread(y)[2..] == Spread(y[1..]);
      SpreadInjective(x[1..], y[1..]);
      assert Spread(x)[1] == Spread(y)[1] && Spread(x)[0] == Spread(y)[0];
      assert x == [x[0]] + x[1..] && y == [y[0]] + y[1..];
    }
  }

  /** The assumptions on the digest can be met, for every policy at once. */
  lemma CollisionFreeDigestExists(queue: string, rules: seq<Limit>)
    ensures Hexadecimal(Spread) && CollisionFree(Spread, queue, rules)
  {
    forall x ensures ':' !in Spread(x) {
      SpreadHasNoColon(x);
    }
    forall m, n | m in rules && n in rules ensures !Collide(Spread, RuleText(queue, m), RuleText(queue, n)) {
      if Spread(RuleText(queue, m)) == Spread(RuleText(queue, n)) {
        SpreadInjective(RuleText(queue, m), RuleText(queue, n));
      }
    }
  }

  // ---- normalisation ----

  predicate Usable(n: Limit) {
    n.limit > 0 && n.period > 0 && 1 <= n.burst <= n.limit
  }

  /** Some enabled configured limit normalises to `n`. */
  ghost predicate Configured(configured: seq<Limit>, n: Limit) {
    exists c :: c in configured && c.limit > 0 && Normalize(c) == n
  }

  ghost predicate Pairwise(rules: seq<Limit>) {
    forall i, j :: 0 <= i < j < |rules| ==> rules[i] != rules[j]
  }

  /** Normalisation leaves a usable limit alone, never touches what the limit counts, and
      mends the rest: a second for a missing period, a burst between one and the limit. */
  lemma NormalizeMends(c: Limit)
    ensures Usable(c) ==> Normalize(c) == c
    ensures c.limit > 0 ==> Usable(Normalize(c))
    ensures Normalize(c).(period := c.period, burst := c.burst) == c
    ensures c.period <= 0 ==> Normalize(c).period == 1_000_000_000
    ensures c.period > 0 ==> Normalize(c).period == c.period
    ensures c.limit > 0 && c.burst <= 0 ==> Normalize(c).burst == 1
    ensures c.limit > 0 && c.burst >= c.limit ==> Normalize(c).burst == c.limit
  {
  }

  /** The interval of a rule is its period divided by its limit, rounded down but at least a
      nanosecond. */
  lemma IntervalIsPeriodOverLimit(n: Limit)
    requires Usable(n)
    ensures n.limit <= n.period ==> Interval(n) * n.limit <= n.period < (Interval(n) + 1) * n.limit
    ensures n.limit > n.period ==> Interval(n) == 1
    ensures Interval(n) >= 1
  {
    assert (n.period / n.limit + 1) * n.limit == n.period / n.limit * n.limit + n.limit;
    if n.limit <= n.period {
      QuotientBound(1, n.limit, n.period);
    } else {
      TruncateUnique(n.period, n.limit, 0);
      assert n.period / n.limit * n.limit == 0;
    }
  }

  /** A policy: its list of limits and the older single limit, which becomes a local limit
      of the whole queue with a full burst. */
  datatype Policy = Policy(rateLimits: seq<Limit>, rateLimit: int, ratePeriod: int)

  function WholeQueue(p: Policy): Limit {
    Limit(p.rateLimit, p.ratePeriod, p.rateLimit, Local, ByQueue, "", SmoothMode)
  }

  function AllLimits(p: Policy): seq<Limit> {
    if p.rateLimit > 0 then p.rateLimits + [WholeQueue(p)] else p.rateLimits
  }

  /** Normalised rules are usable and pairwise different, and they are exactly the
      normal forms of the enabled configured limits, the older single one included. */
  method NormalizeRateLimits(policy: Policy) returns (rules: seq<Limit>)
    ensures Pairwise(rules)
    ensures forall n :: n in rules ==> Usable(n)
    ensures forall n :: n in rules <==> Configured(AllLimits(policy), n)
  {
    var configured := policy.rateLimits;
    if policy.rateLimit > 0 {
      configured := configured + [WholeQueue(policy)];
    }
    rules := Deduplicate(configured);
  }

  /** The loop over the configured limits: defaults, signatures, duplicates. */
  method Deduplicate(configured: seq<Limit>) returns (rules: seq<Limit>)
    ensures Pairwise(rules)
    ensures forall n :: n in rules ==> Usable(n)
    ensures forall n :: n in rules <==> Configured(configured, n)
  {
    rules := [];
    var seen: set<string> := {};
    for k := 0 to |configured|
      invariant Pairwise(rules)
      invariant forall n :: n in rules ==> Usable(n)
      invariant forall n :: n in rules <==> Configured(configured[..k], n)
      invariant forall n :: n in rules <==> Signature(n) in seen
    {
      var c := configured[k];
      ConfiguredSnoc(configured[..k], c);
      assert configured[..k + 1] == configured[..k] + [c];
      if c.limit > 0 {
        var n := Normalize(c);
        if Signature(n) !in seen {
          OtherSignatures(n);
          seen := seen + {Signature(n)};
          rules := rules + [n];
        }
      }
    }
    assert configured[..|configured|] == configured;
  }

  lemma OtherSignatures(n: Limit)
    ensures forall m :: Signature(m) == Signature(n) <==> m == n
  {
    forall m ensures Signature(m) == Signature(n) <==> m == n {
      SignatureInjective(m, n);
    }
  }

  lemma ConfiguredSnoc(configured: seq<Limit>, c: Limit)
    ensures forall n :: Configured(configured + [c], n) <==>
      Configured(configured, n) || (c.limit > 0 && n == Normalize(c))
  {
    assert forall x :: x in configured + [c] <==> x in configured || x == c;
    forall n ensures Configured(configured + [c], n) <==>
      Configured(configured, n) || (c.limit > 0 && n == Normalize(c))
    {
    }
  }

  // ---- rate gates ----

  /** The text that identifies the rate gate of a job, from the keys of its queue's rules. */
  function GateText(keys: seq<string>): string {
    if |keys| == 0 then "" else GateText(keys[..|keys| - 1]) + keys[|keys| - 1] + "\0"
  }

  lemma GateOfTwo(x: string, y: string)
    ensures GateText([x, y]) == x + "\0" + y + "\0"
  {
    assert [x, y][..1] == [x] && [x][..0] == [];
    assert GateText([x]) == "" + x + "\0";
  }

  lemma SameEnds(a: string, x: string, y: string, z: string)
    requires a + x + z == a + y + z
    ensures x == y
  {
    var g, h := a + x + z, a + y + z;
    assert g[|a|..|g| - |z|] == x && h[|a|..|h| - |z|] == y;
  }

  lemma GatesDiffer(k: string, x: string, y: string)
    requires x != y
    ensures GateText([k, x]) != GateText([k, y])
  {
    GateOfTwo(k, x);
    GateOfTwo(k, y);
    if GateText([k, x]) == GateText([k, y]) {
      SameEnds(k + "\0", x, y, "\0");
    }
  }

  lemma ValueKeysDiffer(key: string, x: string, y: string)
    requires x != y
    ensures key + ":" + x != key + ":" + y
  {
    if key + ":" + x == key + ":" + y {
      assert key + ":" + x + "" == key + ":" + y + "";
      SameEnds(key + ":", x, y, "");
    }
  }

  /** A gate does not cover all jobs of a rule: with a rule for the whole queue and another one
      by kind, pipeline or tag, jobs with different values share the state of the first rule
      and pass different gates, unless the digest collides on their values. */
  lemma SharedRuleDifferentGates(hash: string -> string, queue: string, whole: Limit, other: Limit,
                                 v: string, w: string)
    requires whole.keyBy.ByQueue? && !other.keyBy.ByQueue?
    requires var key := RuleKey(hash, queue, other); hash(key + "\0" + v) != hash(key + "\0" + w)
    ensures RowKey(hash, queue, whole, v) == RowKey(hash, queue, whole, w)
    ensures GateText([RowKey(hash, queue, whole, v), RowKey(hash, queue, other, v)]) !=
      GateText([RowKey(hash, queue, whole, w), RowKey(hash, queue, other, w)])
  {
    var key := RuleKey(hash, queue, other);
    ValueKeysDiffer(key, hash(key + "\0" + v), hash(key + "\0" + w));
    GatesDiffer(RowKey(hash, queue, whole, v), RowKey(hash, queue, other, v), RowKey(hash, queue, other, w));
  }
}
