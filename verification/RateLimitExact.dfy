/**
 Every answer of the rate limiter from the history of its key alone: how many hits were
 allowed within the window before, and when the oldest of them was.
*/
module RateLimitExact {
  import opened Wrappers
  import opened RateLimit

  /** The times of the allowed hits on the key after `cutoff`, oldest first. */
  function AllowedTimes(hits: seq<Hit>, answers: seq<Answer>, key: Key, cutoff: int): seq<nat>
    requires |hits| == |answers|
  {
    if hits == [] then []
    else
      var n := |hits| - 1;
      AllowedTimes(hits[..n], answers[..n], key, cutoff)
      + (if hits[n].key == key && answers[n].allowed && hits[n].now > cutoff then [hits[n].now] else [])
  }

  /** `s` is the first full second at or after `ms` milliseconds. */
  predicate FirstSecondAt(s: int, ms: int) {
    1000 * (s - 1) < ms <= 1000 * s
  }

  /** The answer to a hit when the allowed hits on its key within the window are at these times. */
  predicate Answers(a: Answer, h: Hit, recent: seq<nat>) {
    && a.limit == h.limit
    && (a.allowed <==> |recent| < h.limit)
    && a.count == |recent| + (if a.allowed then 1 else 0)
    && a.remaining == (if a.allowed then h.limit - |recent| - 1 else 0)
    && FirstSecondAt(a.resetAt, (if a.allowed || recent == [] then h.now else recent[0]) + h.window)
  }

  /** Hit `i` of the run gets the answer that the history of its key before it demands. */
  predicate AnsweredAt(hits: seq<Hit>, answers: seq<Answer>, i: nat)
    requires |hits| == |answers| && i < |hits|
  {
    Answers(answers[i], hits[i], AllowedTimes(hits[..i], answers[..i], hits[i].key, hits[i].now - hits[i].window))
  }

  function Times(entries: seq<Entry>): seq<nat> {
    if entries == [] then [] else Times(entries[..|entries| - 1]) + [entries[|entries| - 1].score]
  }

  lemma {:induction false} TimesAt(entries: seq<Entry>)
    ensures |Times(entries)| == |entries|
    ensures forall i :: 0 <= i < |entries| ==> Times(entries)[i] == entries[i].score
  {
    if entries != [] {
      TimesAt(entries[..|entries| - 1]);
    }
  }

  lemma {:induction false} AfterAppend(x: seq<Entry>, e: Entry, cutoff: int)
    ensures After(x + [e], cutoff) == After(x, cutoff) + (if e.score > cutoff then [e] else [])
  {
    if x == [] {
      assert [] + [e] == [e];
    } else {
      AfterAppend(x[1..], e, cutoff);
      assert (x + [e])[1..] == x[1..] + [e];
    }
  }

  lemma {:induction false} AfterTwice(x: seq<Entry>, c: int, d: int)
    requires c <= d
    ensures After(After(x, c), d) == After(x, d)
  {
    if x != [] {
      AfterTwice(x[1..], c, d);
    }
  }

  lemma CeilingOf(ms: int)
    ensures FirstSecondAt(Seconds(ms), ms)
  {}

  /** The list kept for a key tells the allowed times after any cutoff not before `from`. */
  ghost predicate TracksKey(entries: seq<Entry>, hits: seq<Hit>, answers: seq<Answer>, key: Key, from: int)
    requires |hits| == |answers|
  {
    forall cutoff: int :: cutoff >= from ==> Times(After(entries, cutoff)) == AllowedTimes(hits, answers, key, cutoff)
  }

  ghost predicate Tracks(windows: map<Key, seq<Entry>>, hits: seq<Hit>, answers: seq<Answer>, window: Key -> int, last: int)
    requires |hits| == |answers|
  {
    forall key :: TracksKey(LocalEntries(windows, key), hits, answers, key, last - window(key))
  }

  lemma AppendTimes(hits: seq<Hit>, answers: seq<Answer>, h: Hit, a: Answer, key: Key, cutoff: int)
    requires |hits| == |answers|
    ensures AllowedTimes(hits + [h], answers + [a], key, cutoff)
      == AllowedTimes(hits, answers, key, cutoff) + (if h.key == key && a.allowed && h.now > cutoff then [h.now] else [])
  {
    assert (hits + [h])[..|hits|] == hits && (answers + [a])[..|hits|] == answers;
  }

  /** One hit on the key is answered as its history demands. */
  lemma HitAnswered(entries: seq<Entry>, h: Hit, recent: seq<nat>)
    requires Times(After(entries, h.now - h.window)) == recent
    ensures Answers(LocalHit(entries, h).1, h, recent)
  {
    KeptAnswered(After(entries, h.now - h.window), h);
  }

  lemma KeptAnswered(kept: seq<Entry>, h: Hit)
    ensures Answers(LocalAnswer(kept, h).1, h, Times(kept))
  {
    TimesAt(kept);
    CeilingOf((if kept != [] then kept[0].score else h.now) + h.window);
    CeilingOf(h.now + h.window);
  }

  /** And the list goes on telling the history. */
  lemma HitTracksKey(entries: seq<Entry>, hits: seq<Hit>, answers: seq<Answer>, h: Hit, last: int)
    requires |hits| == |answers| && last <= h.now && TracksKey(entries, hits, answers, h.key, last - h.window)
    ensures var (after, a) := LocalHit(entries, h); TracksKey(after, hits + [h], answers + [a], h.key, h.now - h.window)
  {
    var (after, a) := LocalHit(entries, h);
    var kept := After(entries, h.now - h.window);
    forall cutoff: int | cutoff >= h.now - h.window
      ensures Times(After(after, cutoff)) == AllowedTimes(hits + [h], answers + [a], h.key, cutoff)
    {
      AfterTwice(entries, h.now - h.window, cutoff);
      AppendTimes(hits, answers, h, a, h.key, cutoff);
      if a.allowed {
        TimesAfterAppend(kept, Entry(h.now, h.member), cutoff);
      }
    }
  }

  lemma TimesOneMore(x: seq<Entry>, e: Entry)
    ensures Times(x + [e]) == Times(x) + [e.score]
  {
    assert (x + [e])[..|x|] == x;
  }

  lemma TimesAfterAppend(kept: seq<Entry>, e: Entry, cutoff: int)
    ensures Times(After(kept + [e], cutoff)) == Times(After(kept, cutoff)) + (if e.score > cutoff then [e.score] else [])
  {
    var x := After(kept, cutoff);
    AfterAppend(kept, e, cutoff);
    TimesOneMore(x, e);
    assert x + [] == x && Times(x) + [] == Times(x);
  }

  lemma OtherKeyTracks(entries: seq<Entry>, hits: seq<Hit>, answers: seq<Answer>, h: Hit, a: Answer, key: Key, from: int, later: int)
    requires |hits| == |answers| && key != h.key && from <= later && TracksKey(entries, hits, answers, key, from)
    ensures TracksKey(entries, hits + [h], answers + [a], key, later)
  {
    forall cutoff: int | cutoff >= later
      ensures Times(After(entries, cutoff)) == AllowedTimes(hits + [h], answers + [a], key, cutoff)
    {
      AppendTimes(hits, answers, h, a, key, cutoff);
    }
  }

  lemma HitTracks(windows: map<Key, seq<Entry>>, hits: seq<Hit>, answers: seq<Answer>, h: Hit, window: Key -> int, last: int)
    requires |hits| == |answers| && last <= h.now && h.window == window(h.key) && Tracks(windows, hits, answers, window, last)
    ensures var a := LocalHit(LocalEntries(windows, h.key), h).1;
      && Answers(a, h, AllowedTimes(hits, answers, h.key, h.now - h.window))
      && Tracks(WindowsAfter(windows, h), hits + [h], answers + [a], window, h.now)
  {
    var (after, a) := LocalHit(LocalEntries(windows, h.key), h);
    var windows' := windows[h.key := after];
    assert TracksKey(LocalEntries(windows, h.key), hits, answers, h.key, last - window(h.key));
    HitAnswered(LocalEntries(windows, h.key), h, AllowedTimes(hits, answers, h.key, h.now - h.window));
    HitTracksKey(LocalEntries(windows, h.key), hits, answers, h, last);
    forall key ensures TracksKey(LocalEntries(windows', key), hits + [h], answers + [a], key, h.now - window(key)) {
      if key != h.key {
        OtherKeyTracks(LocalEntries(windows, key), hits, answers, h, a, key, last - window(key), h.now - window(key));
      }
    }
  }

  /** Time does not go back, from `last` on, and each key has one window. */
  ghost predicate Timely(hits: seq<Hit>, window: Key -> int, last: int) {
    && (forall j, k :: 0 <= j < k < |hits| ==> hits[j].now <= hits[k].now)
    && (forall j :: 0 <= j < |hits| ==> last <= hits[j].now && hits[j].window == window(hits[j].key))
  }

  lemma TimelyTail(hits: seq<Hit>, window: Key -> int, last: int)
    requires hits != [] && Timely(hits, window, last)
    ensures last <= hits[0].now && hits[0].window == window(hits[0].key) && Timely(hits[1..], window, hits[0].now)
  {}

  /** The run from its hit `p` on, with the windows that the hits before it have left. */
  lemma {:induction false} RunAnswered(windows: map<Key, seq<Entry>>, hits: seq<Hit>, answers: seq<Answer>, p: nat,
    window: Key -> int, last: int, i: nat)
    requires p <= i < |hits| == |answers| && Timely(hits[p..], window, last)
    requires Tracks(windows, hits[..p], answers[..p], window, last) && answers[p..] == LocalRun(windows, hits[p..])
    ensures AnsweredAt(hits, answers, i)
    decreases |hits| - p
  {
    TimelyTail(hits[p..], window, last);
    RunFirst(windows, hits, answers, p);
    if p == i {
      RunStepAnswered(windows, hits, answers, p, window, last);
    } else {
      RunStepTracks(windows, hits, answers, p, window, last);
      RunAnswered(WindowsAfter(windows, hits[p]), hits, answers, p + 1, window, hits[p].now, i);
    }
  }

  function WindowsAfter(windows: map<Key, seq<Entry>>, h: Hit): map<Key, seq<Entry>> {
    windows[h.key := LocalHit(LocalEntries(windows, h.key), h).0]
  }

  lemma RunStepAnswered(windows: map<Key, seq<Entry>>, hits: seq<Hit>, answers: seq<Answer>, p: nat, window: Key -> int, last: int)
    requires p < |hits| == |answers| && last <= hits[p].now && hits[p].window == window(hits[p].key)
    requires Tracks(windows, hits[..p], answers[..p], window, last)
    requires answers[p] == LocalHit(LocalEntries(windows, hits[p].key), hits[p]).1
    ensures AnsweredAt(hits, answers, p)
  {
    HitTracks(windows, hits[..p], answers[..p], hits[p], window, last);
  }

  lemma RunStepTracks(windows: map<Key, seq<Entry>>, hits: seq<Hit>, answers: seq<Answer>, p: nat, window: Key -> int, last: int)
    requires p < |hits| == |answers| && last <= hits[p].now && hits[p].window == window(hits[p].key)
    requires Tracks(windows, hits[..p], answers[..p], window, last)
    requires answers[p] == LocalHit(LocalEntries(windows, hits[p].key), hits[p]).1
    ensures Tracks(WindowsAfter(windows, hits[p]), hits[..p + 1], answers[..p + 1], window, hits[p].now)
  {
    HitTracks(windows, hits[..p], answers[..p], hits[p], window, last);
    TracksSame(WindowsAfter(windows, hits[p]), hits[..p] + [hits[p]], hits[..p + 1],
               answers[..p] + [answers[p]], answers[..p + 1], window, hits[p].now);
  }

  lemma TracksSame(windows: map<Key, seq<Entry>>, hits: seq<Hit>, hits': seq<Hit>, answers: seq<Answer>, answers': seq<Answer>,
    window: Key -> int, last: int)
    requires hits == hits' && answers == answers' && |hits| == |answers| && Tracks(windows, hits, answers, window, last)
    ensures Tracks(windows, hits', answers', window, last)
  {}

  lemma RunFirst(windows: map<Key, seq<Entry>>, hits: seq<Hit>, answers: seq<Answer>, p: nat)
    requires p < |hits| == |answers| && answers[p..] == LocalRun(windows, hits[p..])
    ensures answers[p] == LocalHit(LocalEntries(windows, hits[p].key), hits[p]).1
    ensures hits[p..][0] == hits[p] && hits[p..][1..] == hits[p + 1..]
    ensures hits[..p] + [hits[p]] == hits[..p + 1] && answers[..p] + [answers[p]] == answers[..p + 1]
    ensures answers[p + 1..] == LocalRun(WindowsAfter(windows, hits[p]), hits[p + 1..])
  {
    LocalRunFirst(windows, hits[p..]);
    assert hits[p..][1..] == hits[p + 1..] && answers[p..][1..] == answers[p + 1..];
  }

  lemma {:induction false} LocalRunLength(windows: map<Key, seq<Entry>>, hits: seq<Hit>)
    ensures |LocalRun(windows, hits)| == |hits|
    decreases |hits|
  {
    if hits != [] {
      var (entries, _) := LocalHit(LocalEntries(windows, hits[0].key), hits[0]);
      LocalRunFirst(windows, hits);
      LocalRunLength(windows[hits[0].key := entries], hits[1..]);
    }
  }

  /** On every run with time that never goes back and a fixed window per key, each answer of
      the local store is the one its key's history demands: allowed exactly while fewer hits
      than the limit were allowed within the window, with their count, what remains, and the
      second at which the oldest of them, or the hit itself, leaves the window. */
  lemma LocalAnswersExactly(hits: seq<Hit>, window: Key -> int, i: nat)
    requires Timely(hits, window, 0) && i < |hits|
    ensures |LocalRun(map[], hits)| == |hits| && AnsweredAt(hits, LocalRun(map[], hits), i)
  {
    LocalRunLength(map[], hits);
    RunAnswered(map[], hits, LocalRun(map[], hits), 0, window, 0, i);
  }

  /** So it is with the answers of the Redis store, when members are never reused. */
  lemma ScriptAnswersExactly(hits: seq<Hit>, answers: seq<Answer>, window: Key -> int, i: nat)
    requires WellFormedRun(hits, window) && ScriptRun(map[], hits, answers) && i < |hits|
    ensures |answers| == |hits| && AnsweredAt(hits, answers, i)
  {
    StoresAgree(hits, answers, window);
    LocalAnswersExactly(hits, window, i);
  }
}
