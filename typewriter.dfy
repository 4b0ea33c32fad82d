/** The hero-section typewriter (app.js:12-45).
 *
 *  The page keeps three globals, `phraseIndex`, `charIndex` and `isDeleting`,
 *  and `typeText` re-arms itself with `setTimeout` after every step.  When a
 *  phrase is fully typed, the step arms a second, one-shot timer that sets
 *  `isDeleting` 2000 ms later; meanwhile the ticks keep running every 120 ms,
 *  so `charIndex` overshoots the phrase length.  Timers are events here: a tick
 *  (`TickStep`) and the firing of the "start deleting" timer (`FireStep`),
 *  which may happen after any number of ticks.
 */
module Typewriter {

  /** Delay in ms of the next tick when not deleting (app.js:43). */
  const TypingDelay: nat := 120
  /** Delay in ms of the next tick when deleting (app.js:43). */
  const DeletingDelay: nat := 75
  /** Delay in ms of the timer that switches to deleting (app.js:37). */
  const HoldDelay: nat := 2000

  /** The phrases the page cycles through (app.js:13-19). */
  const SitePhrases: seq<string> := [
    "Computer Science Undergraduate",
    "Systems Performance Engineer",
    "Graphics Programming Enthusiast",
    "Performance Optimization Researcher",
    "Hardware-Software Interface Designer"
  ]

  /** How `String.prototype.substring` treats an index argument: below 0 it
      counts as 0, above the length as the length. */
  function ClampIndex(k: int, len: nat): (r: nat)
    ensures r <= len
    ensures 0 <= k <= len ==> r == k
  {
    if k < 0 then 0 else if k > len then len else k
  }

  /** `s.substring(start, end)`: both indices clamped into [0, |s|], and
      swapped when the first exceeds the second. */
  function Substring(s: string, start: int, end: int): (r: string)
    ensures |r| <= |s|
  {
    var a := ClampIndex(start, |s|);
    var b := ClampIndex(end, |s|);
    if a <= b then s[a..b] else s[b..a]
  }

  /** `s.substring(0, k)` is the prefix of `s` of the clamped length, so it is
      the whole of `s` once `k` reaches or passes the length. */
  lemma PrefixSubstring(s: string, k: int)
    ensures Substring(s, 0, k) <= s
    ensures |Substring(s, 0, k)| == ClampIndex(k, |s|)
    ensures k >= |s| ==> Substring(s, 0, k) == s
  {
  }

  /** The typewriter's state: the three globals, the text shown in
      `#typed-text`, and how many "start deleting" timers are armed and have
      not yet fired. */
  datatype Cursor = Cursor(
    phraseIndex: nat,
    charIndex: int,
    isDeleting: bool,
    text: string,
    deleteTimers: nat)

  /** The state at the start of a phrase: nothing typed, typing, no timer. */
  function PhraseStart(i: nat): Cursor
  {
    Cursor(i, 0, false, "", 0)
  }

  /** One run of `typeText` (app.js:25-41). */
  function TickStep(phrases: seq<string>, c: Cursor): (r: Cursor)
    requires c.phraseIndex < |phrases|
    ensures r.phraseIndex < |phrases|
  {
    var phrase := phrases[c.phraseIndex];
    var k := if c.isDeleting then c.charIndex - 1 else c.charIndex + 1;
    var shown := c.(text := Substring(phrase, 0, k), charIndex := k);
    if !c.isDeleting && k == |phrase| then
      shown.(deleteTimers := c.deleteTimers + 1)
    else if c.isDeleting && k == 0 then
      shown.(isDeleting := false, phraseIndex := (c.phraseIndex + 1) % |phrases|)
    else
      shown
  }

  /** The delay `typeText` passes to the `setTimeout` that schedules its
      successor, read after the update (app.js:43-44). */
  function NextDelay(c: Cursor): (d: nat)
    ensures d == DeletingDelay <==> c.isDeleting
    ensures d == TypingDelay <==> !c.isDeleting
  {
    if c.isDeleting then DeletingDelay else TypingDelay
  }

  /** The "start deleting" timer fires: `isDeleting = true` (app.js:37). */
  function FireStep(c: Cursor): (r: Cursor)
    requires c.deleteTimers > 0
    ensures r.isDeleting && r.deleteTimers < c.deleteTimers
  {
    c.(isDeleting := true, deleteTimers := c.deleteTimers - 1)
  }

  /** `n` ticks in a row with no timer firing in between. */
  function Ticks(phrases: seq<string>, c: Cursor, n: nat): (r: Cursor)
    requires c.phraseIndex < |phrases|
    ensures r.phraseIndex < |phrases|
    decreases n
  {
    if n == 0 then c else Ticks(phrases, TickStep(phrases, c), n - 1)
  }

  /** What holds of every reachable state:
      - the text shown is `substring(0, charIndex)` of the current phrase;
      - at most one "start deleting" timer is pending, and none while deleting;
      - while deleting, `charIndex` is at least 1, so the next deleting tick
        never takes it below 0;
      - a pending timer was armed at `charIndex == length`, and `charIndex`
        has only grown since;
      - while typing with no timer armed, `charIndex` has not yet reached the
        length of a non-empty phrase. */
  ghost predicate Inv(phrases: seq<string>, c: Cursor)
  {
    && c.phraseIndex < |phrases|
    && c.text == Substring(phrases[c.phraseIndex], 0, c.charIndex)
    && c.deleteTimers + (if c.isDeleting then 1 else 0) <= 1
    && (c.isDeleting ==> c.charIndex >= 1)
    && (c.deleteTimers > 0 ==> c.charIndex >= |phrases[c.phraseIndex]| && c.charIndex >= 1)
    && (!c.isDeleting && c.deleteTimers == 0 ==>
          c.charIndex >= 0 && (phrases[c.phraseIndex] != [] ==> c.charIndex < |phrases[c.phraseIndex]|))
  }

  /** The page starts in a state satisfying the invariant (app.js:21-23). */
  lemma StartIsValid(phrases: seq<string>)
    requires |phrases| > 0
    ensures Inv(phrases, PhraseStart(0))
  {
  }

  /** A tick keeps the invariant. */
  lemma TickKeepsInv(phrases: seq<string>, c: Cursor)
    requires Inv(phrases, c)
    ensures Inv(phrases, TickStep(phrases, c))
  {
  }

  /** The timer firing keeps the invariant, and deletion starts from at least
      the phrase length (app.js:28-37). */
  lemma FireKeepsInv(phrases: seq<string>, c: Cursor)
    requires Inv(phrases, c) && c.deleteTimers > 0
    ensures Inv(phrases, FireStep(c))
    ensures FireStep(c).charIndex >= |phrases[c.phraseIndex]|
  {
  }

  /** In every reachable state the text shown is a prefix of the current
      phrase and `charIndex` is not negative (app.js:29-34). */
  lemma DisplayIsPrefix(phrases: seq<string>, c: Cursor)
    requires Inv(phrases, c)
    ensures c.text <= phrases[c.phraseIndex]
    ensures c.charIndex >= 0
  {
    PrefixSubstring(phrases[c.phraseIndex], c.charIndex);
  }

  /** `phraseIndex` moves only on a deleting tick that brings `charIndex` to
      0; it then becomes `(phraseIndex + 1) % phrases.length`, typing resumes
      with nothing shown, and the one timer of the cycle has been used
      (app.js:38-41). */
  lemma TickAdvance(phrases: seq<string>, c: Cursor)
    requires Inv(phrases, c)
    ensures var r := TickStep(phrases, c);
      if c.isDeleting && c.charIndex == 1 then
        && r.phraseIndex == (c.phraseIndex + 1) % |phrases|
        && !r.isDeleting && r.charIndex == 0 && r.text == "" && r.deleteTimers == 0
      else
        r.phraseIndex == c.phraseIndex
  {
  }

  /** What the typewriter sees: its own tick, or the hold timer firing. */
  datatype TypingEvent = TypeTick | HoldTimerFires

  /** The state after a sequence of events.  A hold timer firing with none
      armed cannot happen and changes nothing. */
  function Run(phrases: seq<string>, c: Cursor, events: seq<TypingEvent>): (r: Cursor)
    requires c.phraseIndex < |phrases|
    ensures r.phraseIndex < |phrases|
    decreases |events|
  {
    if events == [] then c
    else
      var next := match events[0]
        case TypeTick => TickStep(phrases, c)
        case HoldTimerFires => if c.deleteTimers > 0 then FireStep(c) else c;
      Run(phrases, next, events[1..])
  }

  /** Whatever ticks and timer firings happen, in whatever order, from a
      state satisfying the invariant: the text shown stays a prefix of the
      current phrase, `charIndex` stays non-negative and at most one hold
      timer is ever pending (app.js:25-45). */
  lemma {:induction false} RunKeepsInv(phrases: seq<string>, c: Cursor, events: seq<TypingEvent>)
    requires Inv(phrases, c)
    ensures Inv(phrases, Run(phrases, c, events))
    ensures Run(phrases, c, events).text <= phrases[Run(phrases, c, events).phraseIndex]
    ensures Run(phrases, c, events).charIndex >= 0
    ensures Run(phrases, c, events).deleteTimers <= 1
    decreases |events|
  {
    if events == [] {
      DisplayIsPrefix(phrases, c);
    } else {
      var next := match events[0]
        case TypeTick => TickStep(phrases, c)
        case HoldTimerFires => if c.deleteTimers > 0 then FireStep(c) else c;
      TickKeepsInv(phrases, c);
      if c.deleteTimers > 0 {
        FireKeepsInv(phrases, c);
      }
      RunKeepsInv(phrases, next, events[1..]);
    }
  }

  /** Typing a non-empty phrase from its start: after `k < |p|` ticks the
      first `k` characters are shown and no timer is armed; the tick that
      completes the phrase arms exactly one timer (app.js:32-37). */
  lemma {:induction false} TypeRun(phrases: seq<string>, i: nat, k: nat)
    requires i < |phrases| && phrases[i] != [] && k <= |phrases[i]|
    ensures Ticks(phrases, PhraseStart(i), k) ==
      Cursor(i, k, false, phrases[i][..k], if k == |phrases[i]| then 1 else 0)
    decreases k
  {
    var p := phrases[i];
    if k > 0 {
      TypeRun(phrases, i, k - 1);
      TicksSplit(phrases, PhraseStart(i), k - 1);
      PrefixSubstring(p, k);
    }
  }

  /** Ticks during the 2000 ms hold keep typing past the end: `charIndex`
      grows beyond the length while the whole phrase stays shown and the one
      pending timer stays pending (app.js:32-36). */
  lemma {:induction false} HoldRun(phrases: seq<string>, i: nat, h: nat)
    requires i < |phrases| && phrases[i] != []
    ensures Ticks(phrases, Cursor(i, |phrases[i]|, false, phrases[i], 1), h) ==
      Cursor(i, |phrases[i]| + h, false, phrases[i], 1)
    decreases h
  {
    var p := phrases[i];
    if h > 0 {
      var start := Cursor(i, |p|, false, p, 1);
      HoldRun(phrases, i, h - 1);
      TicksSplit(phrases, start, h - 1);
      PrefixSubstring(p, |p| + h);
    }
  }

  /** Deleting from `charIndex == m`: after `j < m` ticks `charIndex` is
      `m - j` and the clamped prefix of that length is shown, so nothing
      visibly changes while `charIndex` is still above the length; the `m`-th
      tick moves to the start of the next phrase (app.js:28-30, 38-41). */
  lemma {:induction false} DeleteRun(phrases: seq<string>, i: nat, m: nat, j: nat)
    requires i < |phrases| && 1 <= m && j <= m
    ensures Ticks(phrases, Cursor(i, m, true, Substring(phrases[i], 0, m), 0), j) ==
      if j == m then PhraseStart((i + 1) % |phrases|)
      else Cursor(i, m - j, true, Substring(phrases[i], 0, m - j), 0)
    decreases j
  {
    if j > 0 {
      var start := Cursor(i, m, true, Substring(phrases[i], 0, m), 0);
      DeleteRun(phrases, i, m, j - 1);
      TicksSplit(phrases, start, j - 1);
    }
  }

  /** `n + 1` ticks are `n` ticks followed by one more. */
  lemma {:induction false} TicksSplit(phrases: seq<string>, c: Cursor, n: nat)
    requires c.phraseIndex < |phrases|
    ensures Ticks(phrases, c, n + 1) == TickStep(phrases, Ticks(phrases, c, n))
    decreases n
  {
    if n > 0 {
      TicksSplit(phrases, TickStep(phrases, c), n - 1);
    }
  }

  /** One whole cycle over phrase `i`, as the code runs it: `|p|` typing
      ticks arm the timer, `h` more ticks run during the hold and take
      `charIndex` to `|p| + h`, the timer fires, the first `h` deleting ticks
      still show the whole phrase, and `|p| + h` deleting ticks in all end at
      the start of phrase `(i + 1) % phrases.length`. */
  lemma FullCycle(phrases: seq<string>, i: nat, h: nat)
    requires i < |phrases| && phrases[i] != []
    ensures var typed := Ticks(phrases, PhraseStart(i), |phrases[i]| + h);
      && typed == Cursor(i, |phrases[i]| + h, false, phrases[i], 1)
      && (forall j :: 0 <= j <= h ==> Ticks(phrases, FireStep(typed), j).text == phrases[i])
      && Ticks(phrases, FireStep(typed), |phrases[i]| + h) == PhraseStart((i + 1) % |phrases|)
  {
    var p := phrases[i];
    TypeRun(phrases, i, |p|);
    assert p[..|p|] == p;
    TicksAdd(phrases, PhraseStart(i), |p|, h);
    HoldRun(phrases, i, h);
    var typed := Cursor(i, |p| + h, false, p, 1);
    PrefixSubstring(p, |p| + h);
    assert FireStep(typed) == Cursor(i, |p| + h, true, Substring(p, 0, |p| + h), 0);
    forall j | 0 <= j <= h
      ensures Ticks(phrases, FireStep(typed), j).text == p
    {
      DeleteRun(phrases, i, |p| + h, j);
      PrefixSubstring(p, |p| + h - j);
    }
    DeleteRun(phrases, i, |p| + h, |p| + h);
  }

  /** `m + n` ticks are `m` ticks followed by `n` ticks. */
  lemma {:induction false} TicksAdd(phrases: seq<string>, c: Cursor, m: nat, n: nat)
    requires c.phraseIndex < |phrases|
    ensures Ticks(phrases, c, m + n) == Ticks(phrases, Ticks(phrases, c, m), n)
    decreases m
  {
    if m > 0 {
      TicksAdd(phrases, TickStep(phrases, c), m - 1, n);
    }
  }

  /** The page's five phrases are all non-empty, so every cycle completes. */
  lemma SitePhrasesNonEmpty()
    ensures |SitePhrases| == 5
    ensures forall i :: 0 <= i < |SitePhrases| ==> SitePhrases[i] != []
  {
  }

  /** The typewriter as the page runs it: the globals of app.js:21-23, the
      `#typed-text` content, and the timers in flight. */
  class TypedText {
    const phrases: seq<string>
    var phraseIndex: nat
    var charIndex: int
    var isDeleting: bool
    var text: string
    /** "start deleting" timers armed and not yet fired */
    var deleteTimers: nat
    /** `typeText` timers armed and not yet fired */
    var pendingTicks: nat
    /** how many "start deleting" timers the current phrase cycle has armed */
    ghost var armsThisCycle: nat

    function State(): Cursor
      reads this
    {
      Cursor(phraseIndex, charIndex, isDeleting, text, deleteTimers)
    }

    ghost predicate Valid()
      reads this
    {
      && |phrases| > 0
      && Inv(phrases, State())
      && pendingTicks == 1
      && armsThisCycle == deleteTimers + (if isDeleting then 1 else 0)
    }

    /** Page load: the globals at their initial values, `#typed-text` empty,
        and the first `typeText` armed by the DOMContentLoaded handler
        (app.js:21-23, 575-577). */
    constructor (phrases: seq<string>)
      requires |phrases| > 0
      ensures Valid() && this.phrases == phrases
      ensures State() == PhraseStart(0) && armsThisCycle == 0
    {
      this.phrases := phrases;
      phraseIndex, charIndex, isDeleting := 0, 0, false;
      text := "";
      deleteTimers := 0;
      pendingTicks := 1;
      armsThisCycle := 0;
    }

    /** The pending `typeText` timer fires (app.js:25-45).  It consumes that
        timer and arms exactly one successor, whose delay it returns. */
    method Tick() returns (delay: nat)
      requires Valid()
      modifies this
      ensures Valid()
      ensures State() == TickStep(phrases, old(State()))
      ensures delay == NextDelay(State())
      ensures old(pendingTicks) == pendingTicks == 1
      ensures old(isDeleting) && charIndex == 0 ==> old(armsThisCycle) == 1 && armsThisCycle == 0
      ensures !old(isDeleting) && charIndex == |phrases[phraseIndex]| ==> armsThisCycle == 1
    {
      TickKeepsInv(phrases, State());
      pendingTicks := pendingTicks - 1;
      var currentPhrase := phrases[phraseIndex];
      if isDeleting {
        text := Substring(currentPhrase, 0, charIndex - 1);
        charIndex := charIndex - 1;
      } else {
        text := Substring(currentPhrase, 0, charIndex + 1);
        charIndex := charIndex + 1;
      }
      if !isDeleting && charIndex == |currentPhrase| {
        deleteTimers := deleteTimers + 1;
        armsThisCycle := armsThisCycle + 1;
      } else if isDeleting && charIndex == 0 {
        isDeleting := false;
        phraseIndex := (phraseIndex + 1) % |phrases|;
        armsThisCycle := 0;
      }
      delay := if isDeleting then DeletingDelay else TypingDelay;
      pendingTicks := pendingTicks + 1;
    }

    /** The "start deleting" timer fires (app.js:37). */
    method DeleteTimerFires()
      requires Valid() && deleteTimers > 0
      modifies this
      ensures Valid()
      ensures State() == FireStep(old(State()))
      ensures charIndex >= |phrases[phraseIndex]|
      ensures armsThisCycle == old(armsThisCycle) == 1
    {
      FireKeepsInv(phrases, State());
      isDeleting := true;
      deleteTimers := deleteTimers - 1;
    }
  }
}
