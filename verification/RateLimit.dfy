/**
 The sliding-window rate limiter: the process-local store and the Redis script.

 The local store keeps, per key, the list of hits still in the window, oldest first. The
 script keeps a sorted set (member to score) that Redis also expires as a whole. The main
 results: both give the same answer on every run, and no window ever holds more allowed
 hits than the limit.
*/
module RateLimit {
  import opened Wrappers

  type Key = string

  type Member = string

  datatype Entry = Entry(score: nat, member: Member)

  datatype Hit = Hit(key: Key, now: nat, window: int, limit: int, member: Member)

  datatype Answer = Answer(allowed: bool, count: nat, limit: int, remaining: int, resetAt: int)

  /** `Math.ceil(ms / 1000)`. */
  function Seconds(ms: int): int {
    -((-ms) / 1000)
  }

  function Max(a: int, b: int): int {
    if a >= b then a else b
  }

  // ---------------------------------------------------------------------------
  // The process-local store
  // ---------------------------------------------------------------------------

  function After(entries: seq<Entry>, cutoff: int): seq<Entry> {
    if entries == [] then []
    else if entries[0].score > cutoff then [entries[0]] + After(entries[1..], cutoff)
    else After(entries[1..], cutoff)
  }

  function LocalHit(entries: seq<Entry>, h: Hit): (seq<Entry>, Answer) {
    LocalAnswer(After(entries, h.now - h.window), h)
  }

  /** The answer once old hits are dropped. */
  function LocalAnswer(kept: seq<Entry>, h: Hit): (seq<Entry>, Answer) {
    if |kept| >= h.limit then
      (kept, Answer(false, |kept|, h.limit, 0,
                    Seconds((if kept != [] then kept[0].score else h.now) + h.window)))
    else
      (kept + [Entry(h.now, h.member)],
       Answer(true, |kept| + 1, h.limit, Max(0, h.limit - (|kept| + 1)), Seconds(h.now + h.window)))
  }

  // ---------------------------------------------------------------------------
  // The Redis script
  // ---------------------------------------------------------------------------

  /** A sorted set and the moment Redis deletes the whole key, if one is set. */
  datatype RedisKey = RedisKey(scores: map<Member, nat>, expiresAt: Option<int>)

  const MISSING := RedisKey(map[], None)

  /** What a command sees at time `now`: an expired key is gone. */
  function Seen(k: RedisKey, now: int): RedisKey {
    if k.expiresAt.Some? && k.expiresAt.value <= now then MISSING else k
  }

  /** `ZREMRANGEBYSCORE key 0 max`; Redis drops a key whose set becomes empty. */
  function RemoveUpTo(k: RedisKey, max: int): RedisKey {
    var left := map m | m in k.scores && !(0 <= k.scores[m] <= max) :: k.scores[m];
    if left == map[] then MISSING else k.(scores := left)
  }

  /** `ZRANGE key 0 0 WITHSCORES`: the smallest score of a non-empty set. */
  ghost predicate IsOldest(scores: map<Member, nat>, score: nat) {
    && (exists m :: m in scores && scores[m] == score)
    && (forall m :: m in scores ==> score <= scores[m])
  }

  /** What the script may answer; only the choice of the oldest score is left open, and
      there is exactly one. */
  ghost predicate ScriptHit(k: RedisKey, h: Hit, k': RedisKey, a: Answer) {
    ScriptAnswer(RemoveUpTo(Seen(k, h.now), h.now - h.window), h, k', a)
  }

  ghost predicate ScriptAnswer(left: RedisKey, h: Hit, k': RedisKey, a: Answer) {
    if |left.scores| >= h.limit then
      && k' == left
      && !a.allowed && a.count == |left.scores| && a.limit == h.limit && a.remaining == 0
      && (if left.scores == map[] then a.resetAt == Seconds(h.now + h.window)
          else exists oldest: nat :: IsOldest(left.scores, oldest) && a.resetAt == Seconds(oldest + h.window))
    else
      && k' == RedisKey(left.scores[h.member := h.now], Some(h.now + h.window))
      && a == Answer(true, |left.scores| + 1, h.limit, Max(0, h.limit - (|left.scores| + 1)), Seconds(h.now + h.window))
  }

  // ---------------------------------------------------------------------------
  // One key: the two stores stay related
  // ---------------------------------------------------------------------------

  predicate Sorted(entries: seq<Entry>) {
    forall i, j :: 0 <= i < j < |entries| ==> entries[i].score <= entries[j].score
  }

  predicate Distinct(entries: seq<Entry>) {
    forall i, j :: 0 <= i < j < |entries| ==> entries[i].member != entries[j].member
  }

  /** The sorted set and the list hold the same hits. */
  ghost predicate SameHits(entries: seq<Entry>, scores: map<Member, nat>) {
    && (forall i :: 0 <= i < |entries| ==> entries[i].member in scores && scores[entries[i].member] == entries[i].score)
    && (forall m :: m in scores ==> exists i :: 0 <= i < |entries| && entries[i].member == m)
  }

  /** Same hits, in order, none later than `last`; and if the key is to expire, then not
      before every hit has left the window. */
  ghost predicate Related(entries: seq<Entry>, k: RedisKey, window: int, last: nat) {
    && Sorted(entries) && Distinct(entries) && SameHits(entries, k.scores)
    && (forall i :: 0 <= i < |entries| ==> entries[i].score <= last)
    && (k.expiresAt.Some? ==>
          forall i :: 0 <= i < |entries| ==> entries[i].score + window <= k.expiresAt.value)
  }

  lemma {:induction false} AfterMembers(entries: seq<Entry>, cutoff: int)
    ensures forall e :: e in After(entries, cutoff) <==> e in entries && e.score > cutoff
  {
    if entries != [] {
      AfterMembers(entries[1..], cutoff);
      assert entries == [entries[0]] + entries[1..];
    }
  }

  lemma {:induction false} AfterSorted(entries: seq<Entry>, cutoff: int)
    requires Sorted(entries)
    ensures Sorted(After(entries, cutoff))
  {
    if entries != [] {
      AfterSorted(entries[1..], cutoff);
      AfterMembers(entries[1..], cutoff);
      var rest := After(entries[1..], cutoff);
      forall i | 0 <= i < |rest| ensures entries[0].score <= rest[i].score {
        assert rest[i] in entries[1..];
      }
    }
  }

  lemma {:induction false} AfterDistinct(entries: seq<Entry>, cutoff: int)
    requires Distinct(entries)
    ensures Distinct(After(entries, cutoff))
  {
    if entries != [] {
      AfterDistinct(entries[1..], cutoff);
      AfterMembers(entries[1..], cutoff);
      var rest := After(entries[1..], cutoff);
      forall i | 0 <= i < |rest| ensures entries[0].member != rest[i].member {
        assert rest[i] in entries[1..];
      }
    }
  }

  lemma {:induction false} AfterNone(entries: seq<Entry>, cutoff: int)
    requires forall i :: 0 <= i < |entries| ==> entries[i].score <= cutoff
    ensures After(entries, cutoff) == []
  {
    if entries != [] {
      AfterNone(entries[1..], cutoff);
    }
  }

  lemma SameHitsTail(entries: seq<Entry>, scores: map<Member, nat>)
    requires entries != [] && Distinct(entries) && SameHits(entries, scores)
    ensures Distinct(entries[1..]) && SameHits(entries[1..], scores - {entries[0].member})
  {
    var tail, rest := entries[1..], scores - {entries[0].member};
    forall i | 0 <= i < |tail| ensures tail[i].member in rest && rest[tail[i].member] == tail[i].score {
      assert tail[i] == entries[i + 1];
    }
    forall q | q in rest ensures exists i :: 0 <= i < |tail| && tail[i].member == q {
      var i :| 0 <= i < |entries| && entries[i].member == q;
      assert tail[i - 1].member == q;
    }
  }

  lemma RemoveKey(scores: map<Member, nat>, m: Member)
    requires m in scores
    ensures |scores - {m}| == |scores| - 1
  {
    assert scores.Keys == (scores - {m}).Keys + {m};
  }

  /** Equal hits means equal counts. */
  lemma {:induction false} SameHitsCount(entries: seq<Entry>, scores: map<Member, nat>)
    requires Distinct(entries) && SameHits(entries, scores)
    ensures |entries| == |scores|
  {
    if entries == [] {
      assert scores == map[];
    } else {
      SameHitsTail(entries, scores);
      SameHitsCount(entries[1..], scores - {entries[0].member});
      assert scores[entries[0].member] == entries[0].score;
      RemoveKey(scores, entries[0].member);
    }
  }

  lemma TrimSameHits(entries: seq<Entry>, scores: map<Member, nat>, cutoff: int)
    requires Distinct(entries) && SameHits(entries, scores)
    ensures SameHits(After(entries, cutoff), map m | m in scores && !(0 <= scores[m] <= cutoff) :: scores[m])
  {
    var kept := After(entries, cutoff);
    AfterMembers(entries, cutoff);
    var left := map m | m in scores && !(0 <= scores[m] <= cutoff) :: scores[m];
    forall i | 0 <= i < |kept| ensures kept[i].member in left && left[kept[i].member] == kept[i].score {
      assert kept[i] in entries;
    }
    forall m | m in left ensures exists i :: 0 <= i < |kept| && kept[i].member == m {
      var j :| 0 <= j < |entries| && entries[j].member == m;
      assert entries[j] in kept;
    }
  }

  lemma TrimLive(entries: seq<Entry>, k: RedisKey, window: int, last: nat, cutoff: int)
    requires Related(entries, k, window, last)
    ensures Related(After(entries, cutoff), RemoveUpTo(k, cutoff), window, last)
  {
    var kept := After(entries, cutoff);
    AfterSorted(entries, cutoff);
    AfterDistinct(entries, cutoff);
    TrimSameHits(entries, k.scores, cutoff);
    AfterMembers(entries, cutoff);
    forall i | 0 <= i < |kept|
      ensures kept[i].score <= last
      ensures k.expiresAt.Some? ==> kept[i].score + window <= k.expiresAt.value
    {
      assert kept[i] in entries;
      var j :| 0 <= j < |entries| && entries[j] == kept[i];
    }
  }

  /** Forgetting what left the window keeps the two related, whether or not Redis had
      already dropped the whole key: a dropped key has no hit left in the window. */
  lemma TrimRelated(entries: seq<Entry>, k: RedisKey, h: Hit, last: nat)
    requires Related(entries, k, h.window, last) && last <= h.now
    ensures Related(After(entries, h.now - h.window), RemoveUpTo(Seen(k, h.now), h.now - h.window), h.window, h.now)
  {
    var cutoff := h.now - h.window;
    if Seen(k, h.now) != k {
      AfterNone(entries, cutoff);
    } else {
      TrimLive(entries, k, h.window, last, cutoff);
    }
  }

  /** In related stores the smallest score is the first entry's. */
  lemma OldestIsFirst(kept: seq<Entry>, k: RedisKey, window: int, last: nat, oldest: nat)
    requires Related(kept, k, window, last) && kept != [] && IsOldest(k.scores, oldest)
    ensures oldest == kept[0].score
  {
    var m :| m in k.scores && k.scores[m] == oldest;
    var i :| 0 <= i < |kept| && kept[i].member == m;
    assert k.scores[kept[0].member] == kept[0].score;
  }

  lemma DeniedAgrees(kept: seq<Entry>, left: RedisKey, h: Hit, a: Answer)
    requires Related(kept, left, h.window, h.now) && |left.scores| == |kept| >= h.limit
    requires !a.allowed && a.count == |left.scores| && a.limit == h.limit && a.remaining == 0
    requires if left.scores == map[] then a.resetAt == Seconds(h.now + h.window)
             else exists oldest: nat :: IsOldest(left.scores, oldest) && a.resetAt == Seconds(oldest + h.window)
    ensures a == Answer(false, |kept|, h.limit, 0, Seconds((if kept != [] then kept[0].score else h.now) + h.window))
  {
    if kept != [] {
      var oldest: nat :| IsOldest(left.scores, oldest) && a.resetAt == Seconds(oldest + h.window);
      OldestIsFirst(kept, left, h.window, h.now, oldest);
    }
  }

  lemma KeptMembers(entries: seq<Entry>, cutoff: int, m: Member)
    requires forall i :: 0 <= i < |entries| ==> entries[i].member != m
    ensures forall i :: 0 <= i < |After(entries, cutoff)| ==> After(entries, cutoff)[i].member != m
  {
    AfterMembers(entries, cutoff);
    forall i | 0 <= i < |After(entries, cutoff)| ensures After(entries, cutoff)[i].member != m {
      assert After(entries, cutoff)[i] in entries;
    }
  }

  lemma RelatedCount(entries: seq<Entry>, k: RedisKey, window: int, last: nat)
    requires Related(entries, k, window, last)
    ensures |entries| == |k.scores|
  {
    SameHitsCount(entries, k.scores);
  }

  /** What both stores hold once old hits are dropped. */
  lemma Trimmed(entries: seq<Entry>, k: RedisKey, h: Hit, last: nat) returns (kept: seq<Entry>, left: RedisKey)
    requires Related(entries, k, h.window, last) && last <= h.now
    requires forall i :: 0 <= i < |entries| ==> entries[i].member != h.member
    ensures kept == After(entries, h.now - h.window) && left == RemoveUpTo(Seen(k, h.now), h.now - h.window)
    ensures Related(kept, left, h.window, h.now)
    ensures forall i :: 0 <= i < |kept| ==> kept[i].member != h.member
  {
    kept := After(entries, h.now - h.window);
    left := RemoveUpTo(Seen(k, h.now), h.now - h.window);
    TrimRelated(entries, k, h, last);
    KeptMembers(entries, h.now - h.window, h.member);
  }

  lemma AnswersOfTrimmed(entries: seq<Entry>, k: RedisKey, h: Hit, k': RedisKey, a: Answer, kept: seq<Entry>, left: RedisKey)
    requires kept == After(entries, h.now - h.window) && left == RemoveUpTo(Seen(k, h.now), h.now - h.window)
    ensures LocalHit(entries, h) == LocalAnswer(kept, h)
    ensures ScriptHit(k, h, k', a) <==> ScriptAnswer(left, h, k', a)
  {}

  /** One hit: if the stores were related, the script's answer is the local answer and the
      stores are related again. */
  lemma HitAgrees(entries: seq<Entry>, k: RedisKey, h: Hit, last: nat, k': RedisKey, a: Answer)
    requires Related(entries, k, h.window, last) && last <= h.now
    requires forall i :: 0 <= i < |entries| ==> entries[i].member != h.member
    requires ScriptHit(k, h, k', a)
    ensures a == LocalHit(entries, h).1
    ensures Related(LocalHit(entries, h).0, k', h.window, h.now)
  {
    var kept, left := Trimmed(entries, k, h, last);
    AnswersOfTrimmed(entries, k, h, k', a, kept, left);
    TrimmedAgrees(kept, left, h, k', a);
  }

  lemma TrimmedAgrees(kept: seq<Entry>, left: RedisKey, h: Hit, k': RedisKey, a: Answer)
    requires Related(kept, left, h.window, h.now)
    requires forall i :: 0 <= i < |kept| ==> kept[i].member != h.member
    requires ScriptAnswer(left, h, k', a)
    ensures a == LocalAnswer(kept, h).1
    ensures Related(LocalAnswer(kept, h).0, k', h.window, h.now)
  {
    RelatedCount(kept, left, h.window, h.now);
    if |kept| >= h.limit {
      DeniedAgrees(kept, left, h, a);
    } else {
      AppendRelated(kept, left, h);
    }
  }

  lemma AppendRelated(kept: seq<Entry>, left: RedisKey, h: Hit)
    requires Related(kept, left, h.window, h.now)
    requires forall i :: 0 <= i < |kept| ==> kept[i].member != h.member
    ensures Related(kept + [Entry(h.now, h.member)],
                    RedisKey(left.scores[h.member := h.now], Some(h.now + h.window)), h.window, h.now)
  {
    var all := kept + [Entry(h.now, h.member)];
    var scores := left.scores[h.member := h.now];
    forall m | m in scores ensures exists i :: 0 <= i < |all| && all[i].member == m {
      if m == h.member {
        assert all[|kept|].member == m;
      } else {
        var i :| 0 <= i < |kept| && kept[i].member == m;
        assert all[i].member == m;
      }
    }
  }

  /** The script always has an answer. */
  lemma ScriptAnswers(k: RedisKey, h: Hit)
    ensures exists k', a :: ScriptHit(k, h, k', a)
  {
    var left := RemoveUpTo(Seen(k, h.now), h.now - h.window);
    if |left.scores| >= h.limit {
      if left.scores == map[] {
        assert ScriptHit(k, h, left, Answer(false, 0, h.limit, 0, Seconds(h.now + h.window)));
      } else {
        var oldest := OldestExists(left.scores);
        assert ScriptHit(k, h, left, Answer(false, |left.scores|, h.limit, 0, Seconds(oldest + h.window)));
      }
    } else {
      assert ScriptHit(k, h, RedisKey(left.scores[h.member := h.now], Some(h.now + h.window)),
        Answer(true, |left.scores| + 1, h.limit, Max(0, h.limit - (|left.scores| + 1)), Seconds(h.now + h.window)));
    }
  }

  lemma {:induction false} OldestExists(scores: map<Member, nat>) returns (oldest: nat)
    requires scores != map[]
    ensures IsOldest(scores, oldest)
    decreases |scores|
  {
    var m :| m in scores;
    var rest := scores - {m};
    assert scores.Keys == rest.Keys + {m};
    if rest == map[] {
      oldest := scores[m];
    } else {
      var o := OldestExists(rest);
      var r :| r in rest && rest[r] == o;
      oldest := if scores[m] <= o then scores[m] else o;
      assert scores[if scores[m] <= o then m else r] == oldest;
      forall q | q in scores ensures oldest <= scores[q] {
        assert q != m ==> q in rest;
      }
    }
  }

  // ---------------------------------------------------------------------------
  // Runs over many keys
  // ---------------------------------------------------------------------------

  function LocalEntries(windows: map<Key, seq<Entry>>, key: Key): seq<Entry> {
    if key in windows then windows[key] else []
  }

  function RedisAt(db: map<Key, RedisKey>, key: Key): RedisKey {
    if key in db then db[key] else MISSING
  }

  /** The answers of the local store to a list of hits. */
  function LocalRun(windows: map<Key, seq<Entry>>, hits: seq<Hit>): seq<Answer>
    decreases |hits|
  {
    if hits == [] then []
    else
      var (entries, a) := LocalHit(LocalEntries(windows, hits[0].key), hits[0]);
      [a] + LocalRun(windows[hits[0].key := entries], hits[1..])
  }

  /** `answers` are answers the script may give to a list of hits. */
  ghost predicate ScriptRun(db: map<Key, RedisKey>, hits: seq<Hit>, answers: seq<Answer>)
    decreases |hits|
  {
    if hits == [] then answers == []
    else
      && answers != []
      && exists k' ::
           && ScriptHit(RedisAt(db, hits[0].key), hits[0], k', answers[0])
           && ScriptRun(db[hits[0].key := k'], hits[1..], answers[1..])
  }

  /** Time never goes back, each key has one window length, and members are never reused. */
  ghost predicate WellFormedRun(hits: seq<Hit>, window: Key -> int) {
    && (forall i, j :: 0 <= i < j < |hits| ==> hits[i].now <= hits[j].now && hits[i].member != hits[j].member)
    && (forall i :: 0 <= i < |hits| ==> hits[i].window == window(hits[i].key))
  }

  /** One key's two stores are related and hold only members seen so far. */
  ghost predicate KeyRelated(entries: seq<Entry>, k: RedisKey, window: int, last: nat, seen: set<Member>) {
    && Related(entries, k, window, last)
    && forall i :: 0 <= i < |entries| ==> entries[i].member in seen
  }

  ghost predicate AllRelated(windows: map<Key, seq<Entry>>, db: map<Key, RedisKey>, window: Key -> int, last: nat, seen: set<Member>) {
    forall key :: KeyRelated(LocalEntries(windows, key), RedisAt(db, key), window(key), last, seen)
  }

  lemma HitKeepsKey(entries: seq<Entry>, k: RedisKey, h: Hit, last: nat, k': RedisKey, a: Answer, seen: set<Member>)
    requires KeyRelated(entries, k, h.window, last, seen) && last <= h.now && h.member !in seen
    requires ScriptHit(k, h, k', a)
    ensures a == LocalHit(entries, h).1
    ensures KeyRelated(LocalHit(entries, h).0, k', h.window, h.now, seen + {h.member})
  {
    HitAgrees(entries, k, h, last, k', a);
    HitMembers(entries, h, seen);
  }

  lemma HitMembers(entries: seq<Entry>, h: Hit, seen: set<Member>)
    requires forall i :: 0 <= i < |entries| ==> entries[i].member in seen
    ensures var after := LocalHit(entries, h).0;
      forall i :: 0 <= i < |after| ==> after[i].member in seen + {h.member}
  {
    AfterMembers(entries, h.now - h.window);
    var kept := After(entries, h.now - h.window);
    forall i | 0 <= i < |kept| ensures kept[i].member in seen {
      assert kept[i] in entries;
    }
  }

  lemma WaitKeepsKey(entries: seq<Entry>, k: RedisKey, window: int, last: nat, later: nat, seen: set<Member>, more: set<Member>)
    requires KeyRelated(entries, k, window, last, seen) && last <= later && seen <= more
    ensures KeyRelated(entries, k, window, later, more)
  {}

  /** One hit keeps every key related. */
  lemma HitKeepsAllRelated(
    windows: map<Key, seq<Entry>>, db: map<Key, RedisKey>, h: Hit, k': RedisKey, a: Answer,
    window: Key -> int, last: nat, seen: set<Member>)
    requires AllRelated(windows, db, window, last, seen)
    requires last <= h.now && h.member !in seen && h.window == window(h.key)
    requires ScriptHit(RedisAt(db, h.key), h, k', a)
    ensures a == LocalHit(LocalEntries(windows, h.key), h).1
    ensures AllRelated(windows[h.key := LocalHit(LocalEntries(windows, h.key), h).0], db[h.key := k'],
                       window, h.now, seen + {h.member})
  {
    var entries := LocalEntries(windows, h.key);
    HitKeepsKey(entries, RedisAt(db, h.key), h, last, k', a, seen);
    var windows' := windows[h.key := LocalHit(entries, h).0];
    var db' := db[h.key := k'];
    forall key ensures KeyRelated(LocalEntries(windows', key), RedisAt(db', key), window(key), h.now, seen + {h.member}) {
      if key != h.key {
        WaitKeepsKey(LocalEntries(windows, key), RedisAt(db, key), window(key), last, h.now, seen, seen + {h.member});
      }
    }
  }

  lemma TailWellFormed(hits: seq<Hit>, window: Key -> int, last: nat, seen: set<Member>)
    requires hits != [] && WellFormedRun(hits, window)
    requires forall i :: 0 <= i < |hits| ==> last <= hits[i].now && hits[i].member !in seen
    ensures WellFormedRun(hits[1..], window)
    ensures last <= hits[0].now && hits[0].member !in seen && hits[0].window == window(hits[0].key)
    ensures forall i :: 0 <= i < |hits[1..]| ==>
      hits[0].now <= hits[1..][i].now && hits[1..][i].member !in seen + {hits[0].member}
  {}

  lemma LocalRunFirst(windows: map<Key, seq<Entry>>, hits: seq<Hit>)
    requires hits != []
    ensures var (entries, a) := LocalHit(LocalEntries(windows, hits[0].key), hits[0]);
      LocalRun(windows, hits) == [a] + LocalRun(windows[hits[0].key := entries], hits[1..])
  {}

  lemma {:induction false} RunsAgreeFrom(
    windows: map<Key, seq<Entry>>, db: map<Key, RedisKey>, hits: seq<Hit>, answers: seq<Answer>,
    window: Key -> int, last: nat, seen: set<Member>)
    requires WellFormedRun(hits, window) && AllRelated(windows, db, window, last, seen)
    requires forall i :: 0 <= i < |hits| ==> last <= hits[i].now && hits[i].member !in seen
    requires ScriptRun(db, hits, answers)
    ensures answers == LocalRun(windows, hits)
    decreases |hits|
  {
    if hits != [] {
      var h := hits[0];
      var k' :| ScriptHit(RedisAt(db, h.key), h, k', answers[0]) && ScriptRun(db[h.key := k'], hits[1..], answers[1..]);
      TailWellFormed(hits, window, last, seen);
      HitKeepsAllRelated(windows, db, h, k', answers[0], window, last, seen);
      var windows' := windows[h.key := LocalHit(LocalEntries(windows, h.key), h).0];
      RunsAgreeFrom(windows', db[h.key := k'], hits[1..], answers[1..], window, h.now, seen + {h.member});
      LocalRunFirst(windows, hits);
      assert answers == [answers[0]] + answers[1..];
    }
  }

  /** On every run with time that never goes back, a fixed window per key and members that
      are never reused, with any limits, the in-memory store and the script starting empty
      give the same decisions, counts, remainders and reset times. Key expiry never shows. */
  lemma StoresAgree(hits: seq<Hit>, answers: seq<Answer>, window: Key -> int)
    requires WellFormedRun(hits, window)
    requires ScriptRun(map[], hits, answers)
    ensures answers == LocalRun(map[], hits)
  {
    RunsAgreeFrom(map[], map[], hits, answers, window, 0, {});
  }

  // ---------------------------------------------------------------------------
  // The limit holds in every window
  // ---------------------------------------------------------------------------

  /** Stored hits with a score in [from, to). */
  function CountIn(entries: seq<Entry>, from: int, to: int): nat {
    if entries == [] then 0
    else (if from <= entries[0].score < to then 1 else 0) + CountIn(entries[1..], from, to)
  }

  /** Allowed hits on `key` at a time in [from, to) while the hits are made in order. */
  function AllowedIn(windows: map<Key, seq<Entry>>, hits: seq<Hit>, key: Key, from: int, to: int): nat
    decreases |hits|
  {
    if hits == [] then 0
    else
      var h := hits[0];
      var (entries, a) := LocalHit(LocalEntries(windows, h.key), h);
      (if h.key == key && a.allowed && from <= h.now < to then 1 else 0)
      + AllowedIn(windows[h.key := entries], hits[1..], key, from, to)
  }

  lemma {:induction false} CountAfter(entries: seq<Entry>, cutoff: int, from: int, to: int)
    requires cutoff < from
    ensures CountIn(After(entries, cutoff), from, to) == CountIn(entries, from, to) <= |After(entries, cutoff)|
  {
    if entries != [] {
      CountAfter(entries[1..], cutoff, from, to);
    }
  }

  lemma {:induction false} CountAppend(entries: seq<Entry>, e: Entry, from: int, to: int)
    ensures CountIn(entries + [e], from, to) == CountIn(entries, from, to) + (if from <= e.score < to then 1 else 0)
  {
    if entries == [] {
      assert [] + [e] == [e];
    } else {
      CountAppend(entries[1..], e, from, to);
      assert (entries + [e])[1..] == entries[1..] + [e];
    }
  }

  lemma {:induction false} NoneAllowedLater(windows: map<Key, seq<Entry>>, hits: seq<Hit>, key: Key, from: int, to: int)
    requires forall i :: 0 <= i < |hits| ==> to <= hits[i].now
    ensures AllowedIn(windows, hits, key, from, to) == 0
    decreases |hits|
  {
    if hits != [] {
      var h := hits[0];
      NoneAllowedLater(windows[h.key := LocalHit(LocalEntries(windows, h.key), h).0], hits[1..], key, from, to);
    }
  }

  lemma {:induction false} WindowBoundFrom(windows: map<Key, seq<Entry>>, hits: seq<Hit>, key: Key, window: int, limit: nat, from: int)
    requires forall i, j :: 0 <= i < j < |hits| ==> hits[i].now <= hits[j].now
    requires forall i :: 0 <= i < |hits| && hits[i].key == key ==> hits[i].window == window && hits[i].limit == limit
    requires CountIn(LocalEntries(windows, key), from, from + window) <= limit
    ensures CountIn(LocalEntries(windows, key), from, from + window)
          + AllowedIn(windows, hits, key, from, from + window) <= limit
    decreases |hits|
  {
    if hits != [] {
      var h := hits[0];
      var entries := LocalEntries(windows, h.key);
      var windows' := windows[h.key := LocalHit(entries, h).0];
      if from + window <= h.now {
        NoneAllowedLater(windows, hits, key, from, from + window);
      } else {
        if h.key == key {
          CountAfter(entries, h.now - h.window, from, from + window);
          CountAppend(After(entries, h.now - h.window), Entry(h.now, h.member), from, from + window);
        }
        WindowBoundFrom(windows', hits[1..], key, window, limit, from);
      }
    }
  }

  /** With a fixed window and limit for a key, and time that never goes back, no interval of
      one window length contains more than `limit` allowed hits on the key, whatever happens
      on other keys. */
  lemma WindowBound(hits: seq<Hit>, key: Key, window: int, limit: nat, from: int)
    requires forall i, j :: 0 <= i < j < |hits| ==> hits[i].now <= hits[j].now
    requires forall i :: 0 <= i < |hits| && hits[i].key == key ==> hits[i].window == window && hits[i].limit == limit
    ensures AllowedIn(map[], hits, key, from, from + window) <= limit
  {
    WindowBoundFrom(map[], hits, key, window, limit, from);
  }

  /** Hits on `key` at a time in [from, to) that were answered with an allowance. */
  function AllowedAnswers(hits: seq<Hit>, answers: seq<Answer>, key: Key, from: int, to: int): nat
    requires |hits| == |answers|
  {
    if hits == [] then 0
    else
      (if hits[0].key == key && answers[0].allowed && from <= hits[0].now < to then 1 else 0)
      + AllowedAnswers(hits[1..], answers[1..], key, from, to)
  }

  lemma {:induction false} LocalAllowed(windows: map<Key, seq<Entry>>, hits: seq<Hit>, key: Key, from: int, to: int)
    ensures |LocalRun(windows, hits)| == |hits|
    ensures AllowedAnswers(hits, LocalRun(windows, hits), key, from, to) == AllowedIn(windows, hits, key, from, to)
    decreases |hits|
  {
    if hits != [] {
      var (entries, _) := LocalHit(LocalEntries(windows, hits[0].key), hits[0]);
      LocalRunFirst(windows, hits);
      LocalAllowed(windows[hits[0].key := entries], hits[1..], key, from, to);
      assert LocalRun(windows, hits)[1..] == LocalRun(windows[hits[0].key := entries], hits[1..]);
    }
  }

  ghost predicate LimitedTo(hits: seq<Hit>, key: Key, limit: nat) {
    forall i :: 0 <= i < |hits| && hits[i].key == key ==> hits[i].limit == limit
  }

  lemma LocalWindowBound(hits: seq<Hit>, window: Key -> int, key: Key, limit: nat, from: int)
    requires WellFormedRun(hits, window) && LimitedTo(hits, key, limit)
    ensures |LocalRun(map[], hits)| == |hits|
    ensures AllowedAnswers(hits, LocalRun(map[], hits), key, from, from + window(key)) <= limit
  {
    LocalAllowed(map[], hits, key, from, from + window(key));
    WindowBound(hits, key, window(key), limit, from);
  }

  /** The same bound for the Redis store, on every run on which the two stores agree. */
  lemma ScriptWindowBound(hits: seq<Hit>, answers: seq<Answer>, window: Key -> int, key: Key, limit: nat, from: int)
    requires WellFormedRun(hits, window) && LimitedTo(hits, key, limit)
    requires ScriptRun(map[], hits, answers)
    ensures |hits| == |answers| && AllowedAnswers(hits, answers, key, from, from + window(key)) <= limit
  {
    StoresAgree(hits, answers, window);
    LocalWindowBound(hits, window, key, limit, from);
  }

  // ---------------------------------------------------------------------------
  // The mutable stores
  // ---------------------------------------------------------------------------

  class MemoryRateLimitStore {
    var windows: map<Key, seq<Entry>>

    constructor ()
      ensures windows == map[]
    {
      windows := map[];
    }

    static method DropOld(stored: seq<Entry>, cutoff: int) returns (entries: seq<Entry>)
      ensures entries == After(stored, cutoff)
    {
      entries := [];
      for i := 0 to |stored|
        invariant entries + After(stored[i..], cutoff) == After(stored, cutoff)
      {
        assert stored[i..][1..] == stored[i + 1..];
        if stored[i].score > cutoff {
          entries := entries + [stored[i]];
        }
      }
    }

    method Hit(h: Hit) returns (a: Answer)
      modifies this
      ensures var (entries, answer) := LocalHit(LocalEntries(old(windows), h.key), h);
        a == answer && windows == old(windows)[h.key := entries]
    {
      var stored := if h.key in windows then windows[h.key] else [];
      var entries := DropOld(stored, h.now - h.window);
      var resetFromOldest := Seconds((if |entries| > 0 then entries[0].score else h.now) + h.window);
      if |entries| >= h.limit {
        windows := windows[h.key := entries];
        return Answer(false, |entries|, h.limit, 0, resetFromOldest);
      }
      entries := entries + [Entry(h.now, h.member)];
      windows := windows[h.key := entries];
      return Answer(true, |entries|, h.limit, Max(0, h.limit - |entries|), Seconds(h.now + h.window));
    }
  }

  class RedisRateLimitStore {
    var db: map<Key, RedisKey>

    constructor ()
      ensures db == map[]
    {
      db := map[];
    }

    /** The script's commands one by one, then the conversion of its reply. */
    method Hit(h: Hit) returns (a: Answer)
      modifies this
      ensures exists k' :: db == old(db)[h.key := k'] && ScriptHit(RedisAt(old(db), h.key), h, k', a)
    {
      var k := Seen(if h.key in db then db[h.key] else MISSING, h.now);
      k := RemoveUpTo(k, h.now - h.window);
      var count := |k.scores|;
      if count >= h.limit {
        var resetMs := h.now + h.window;
        if k.scores != map[] {
          var oldest := Oldest(k.scores);
          resetMs := oldest + h.window;
        }
        db := db[h.key := k];
        a := Answer(false, count, h.limit, 0, Seconds(resetMs));
        assert ScriptHit(RedisAt(old(db), h.key), h, k, a);
        return;
      }
      k := k.(scores := k.scores[h.member := h.now]);
      k := k.(expiresAt := Some(h.now + h.window));
      db := db[h.key := k];
      a := Answer(true, count + 1, h.limit, Max(0, h.limit - (count + 1)), Seconds(h.now + h.window));
      assert ScriptHit(RedisAt(old(db), h.key), h, k, a);
    }

    static method Oldest(scores: map<Member, nat>) returns (oldest: nat)
      requires scores != map[]
      ensures IsOldest(scores, oldest)
    {
      var first :| first in scores;
      oldest := scores[first];
      ghost var holder := first;
      var todo := scores.Keys - {first};
      while todo != {}
        invariant todo <= scores.Keys && holder in scores && scores[holder] == oldest
        invariant forall m :: m in scores && m !in todo ==> oldest <= scores[m]
      {
        var m :| m in todo;
        if scores[m] < oldest {
          oldest := scores[m];
          holder := m;
        }
        todo := todo - {m};
      }
    }
  }
}
