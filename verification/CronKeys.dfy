/** The unique key of a cron occurrence: a digest of the job's kind and of the text
    cron:group:job:instant. Within one periodic job the instant can be read back; between
    jobs the separator inside a name can make two texts equal. */
module CronKeys {
  import opened Prelude
  import opened Strings
  import opened Jobs
  import opened JobStore
  import opened Cron
  import opened CronPair

  function JobPart(group: string, job: string): string {
    group + ":" + job
  }

  /** The caller's key; instants are written as Unix nanoseconds. */
  function CallerKey(group: string, job: string, t: int): string {
    "cron:" + JobPart(group, job) + ":" + Itoa(t - UNIX_EPOCH)
  }

  function OccurrenceKey(digest: (string, string) -> string, kind: string, caller: string): string {
    PERMANENT_PREFIX + digest(kind, caller)
  }

  /** Two occurrences have the same text exactly when they are at the same instant and the
      names of group and job run together to the same string. */
  lemma CallerKeysEqualIff(g: string, j: string, t: int, h: string, k: string, u: int)
    ensures CallerKey(g, j, t) == CallerKey(h, k, u) <==> t == u && JobPart(g, j) == JobPart(h, k)
  {
    var a, b := Itoa(t - UNIX_EPOCH), Itoa(u - UNIX_EPOCH);
    var x, y := "cron:" + JobPart(g, j), "cron:" + JobPart(h, k);
    if CallerKey(g, j, t) == CallerKey(h, k, u) {
      AfterLastOf(x, ':', a);
      AfterLastOf(y, ':', b);
      ItoaInjective(t - UNIX_EPOCH, u - UNIX_EPOCH);
      assert (x + ":" + a)[..|x|] == x && (y + ":" + b)[..|y|] == y;
      assert x[5..] == JobPart(g, j) && y[5..] == JobPart(h, k);
    }
  }

  /** Groups without the separator in their names never share texts between jobs. */
  lemma PlainGroupsDiffer(g: string, j: string, h: string, k: string)
    requires ':' !in g && ':' !in h && JobPart(g, j) == JobPart(h, k)
    ensures g == h && j == k
  {
    JoinInjective(g, j, h, k, ':');
  }

  /** Otherwise they can: part of a job's name may move to the group's. */
  lemma NamesRunTogether(g: string, middle: string, j: string, t: int)
    ensures CallerKey(g, middle + ":" + j, t) == CallerKey(g + ":" + middle, j, t)
  {
    assert JobPart(g, middle + ":" + j) == JobPart(g + ":" + middle, j);
  }

  /** What the key of an occurrence is built from, besides its instant. */
  datatype Name = Name(kind: string, group: string, job: string)

  function TextOf(n: Name, t: int): string {
    CallerKey(n.group, n.job, t)
  }

  /** The job's keys are those that the scheduler builds. */
  ghost predicate BuiltBy(cfg: Config, digest: (string, string) -> string, n: Name) {
    cfg.params.kind == n.kind && forall t :: cfg.keyOf(t) == OccurrenceKey(digest, n.kind, TextOf(n, t))
  }

  /** The digest has no collision between occurrences of the two jobs. */
  ghost predicate CollisionFree(digest: (string, string) -> string, m: Name, n: Name) {
    forall t, u :: digest(m.kind, TextOf(m, t)) == digest(n.kind, TextOf(n, u)) ==>
      m.kind == n.kind && TextOf(m, t) == TextOf(n, u)
  }

  lemma OccurrenceKeysEqualIff(digest: (string, string) -> string, m: Name, t: int, n: Name, u: int)
    requires CollisionFree(digest, m, n)
    ensures OccurrenceKey(digest, m.kind, TextOf(m, t)) == OccurrenceKey(digest, n.kind, TextOf(n, u)) <==>
      m.kind == n.kind && t == u && JobPart(m.group, m.job) == JobPart(n.group, n.job)
  {
    var x, y := digest(m.kind, TextOf(m, t)), digest(n.kind, TextOf(n, u));
    assert (PERMANENT_PREFIX + x)[|PERMANENT_PREFIX|..] == x && (PERMANENT_PREFIX + y)[|PERMANENT_PREFIX|..] == y;
    CallerKeysEqualIff(m.group, m.job, t, n.group, n.job, u);
  }

  /** So the keys that the scheduler builds meet what the theorems on runs ask of them. */
  lemma SchedulerKeysAreValid(cfg: Config, digest: (string, string) -> string, n: Name)
    requires cfg.maxCatchUp >= 1 && BuiltBy(cfg, digest, n) && CollisionFree(digest, n, n)
    ensures ValidConfig(cfg)
  {
    forall t, u | cfg.keyOf(t) == cfg.keyOf(u) ensures t == u {
      OccurrenceKeysEqualIff(digest, n, t, n, u);
    }
  }

  /** Two periodic jobs have an occurrence at the same instant. */
  ghost predicate Coincide(ca: Config, cb: Config) {
    exists i: nat, j: nat :: i >= 1 && j >= 1 && At(ca, i) == At(cb, j)
  }

  ghost predicate RunTogether(m: Name, n: Name) {
    m.kind == n.kind && JobPart(m.group, m.job) == JobPart(n.group, n.job)
  }

  /** Exactly when an occurrence of one job has the key of an occurrence of the other: the jobs
      are of one kind, their names run together and their schedules coincide. */
  lemma ShareKeyIff(ca: Config, cb: Config, digest: (string, string) -> string, m: Name, n: Name)
    requires BuiltBy(ca, digest, m) && BuiltBy(cb, digest, n) && CollisionFree(digest, m, n)
    ensures ShareKey(ca, cb) <==> RunTogether(m, n) && Coincide(ca, cb)
  {
    forall i: nat, j: nat
      ensures ca.keyOf(At(ca, i)) == cb.keyOf(At(cb, j)) <==> RunTogether(m, n) && At(ca, i) == At(cb, j)
    {
      OccurrenceKeysEqualIff(digest, m, At(ca, i), n, At(cb, j));
    }
    if RunTogether(m, n) && Coincide(ca, cb) {
      var i: nat, j: nat :| i >= 1 && j >= 1 && At(ca, i) == At(cb, j);
      assert ca.keyOf(At(ca, i)) == cb.keyOf(At(cb, j));
    }
    if ShareKey(ca, cb) {
      var i: nat, j: nat :| i >= 1 && j >= 1 && ca.keyOf(At(ca, i)) == cb.keyOf(At(cb, j));
      assert At(ca, i) == At(cb, j);
    }
  }

  /** The exact condition in terms of the configuration: over all runs of two periodic jobs,
      every occurrence that a cursor has passed has a row of its own job and of its own, if and
      only if not all three hold: one kind, names that run together, schedules that coincide. */
  lemma JobsKeepTheirRowsIff(ca: Config, cb: Config, digest: (string, string) -> string, m: Name, n: Name)
    requires BuiltBy(ca, digest, m) && BuiltBy(cb, digest, n)
    requires CollisionFree(digest, m, m) && CollisionFree(digest, n, n) && CollisionFree(digest, m, n)
    requires ca.maxCatchUp >= 1 && ca.catchUp.CatchUpAll? && Lively(ca)
    requires cb.maxCatchUp >= 1 && cb.catchUp.CatchUpAll? && Lively(cb)
    ensures (forall actions :: Clean(ca, cb, actions) ==> EachHasItsRow(ca, cb, RunPair(ca, cb, actions))) <==>
      !(RunTogether(m, n) && Coincide(ca, cb))
  {
    SchedulerKeysAreValid(ca, digest, m);
    SchedulerKeysAreValid(cb, digest, n);
    EachHasItsRowIff(ca, cb);
    ShareKeyIff(ca, cb, digest, m, n);
  }

  /** What is assumed of the digest can be met, for all names at once. */
  function Framed(kind: string, text: string): string {
    Itoa(|kind|) + ":" + (kind + text)
  }

  lemma CollisionFreeDigestExists(m: Name, n: Name)
    ensures CollisionFree(Framed, m, n)
  {
    forall t, u | Framed(m.kind, TextOf(m, t)) == Framed(n.kind, TextOf(n, u))
      ensures m.kind == n.kind && TextOf(m, t) == TextOf(n, u)
    {
      var x, y := TextOf(m, t), TextOf(n, u);
      JoinInjective(Itoa(|m.kind|), m.kind + x, Itoa(|n.kind|), n.kind + y, ':');
      ItoaInjective(|m.kind|, |n.kind|);
      assert (m.kind + x)[..|m.kind|] == m.kind && (n.kind + y)[..|n.kind|] == n.kind;
      assert (m.kind + x)[|m.kind|..] == x && (n.kind + y)[|n.kind|..] == y;
    }
  }

  /** When two jobs of one kind run together, the occurrence of the second one is skipped:
      its insert after the first one's stores nothing. */
  lemma SharedKeySkipsOccurrence(s: Store, p: InsertParams, q: InsertParams, now: int, later: int)
    requires Valid(s) && IsPermanent(p.uniqueKey) && q.uniqueKey == p.uniqueKey
    ensures Apply(Apply(s, Insert(p, now)), Insert(q, later)) == Apply(s, Insert(p, now))
  {
    var t := Apply(s, Insert(p, now));
    if !KeyTaken(s, p.uniqueKey) {
      var id := IdOf(s.sequence + 1);
      assert id in t.jobs && Reserves(t.jobs[id], p.uniqueKey);
    }
    assert KeyTaken(t, p.uniqueKey);
  }

  /** The text that identifies a job's cursor. */
  function CursorText(group: string, job: string): string {
    group + "\0" + job
  }

  /** Jobs whose names run together still have cursors of their own: the cursor's text uses
      another separator, and group names without the NUL character keep it apart. */
  lemma CursorTextsDiffer(g: string, j: string, h: string, k: string)
    requires '\0' !in g && '\0' !in h && CursorText(g, j) == CursorText(h, k)
    ensures g == h && j == k
  {
    JoinInjective(g, j, h, k, '\0');
  }
}
