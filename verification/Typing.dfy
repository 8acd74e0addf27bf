/**
 * Typing indicators: `open_ephemeral_at` and `TypingState` of crates/epochgrid-core/src/ephemeral.rs.
 * A key is a group and a sending device; stop events stay as tombstones until they expire. `clock` is
 * the wall clock in milliseconds; `instant` and `now` are readings of the monotonic clock.
 */
module Typing {
  import opened Prelude

  datatype Event = Event(epoch: nat, issued: nat, stopped: bool, expires: int)

  type Key = (string, string)

  /** One accepted delivery. */
  datatype Delivery = Delivery(key: Key, event: Event, now: int)

  const LIMIT: nat := 256
  const TTL: nat := 8000
  const AHEAD: nat := 1000

  function Saturated(n: int): int {
    if n > U64_MAX then U64_MAX else if n < 0 then 0 else n
  }

  /** The checks of `open_ephemeral_at` on the time of issue, and the expiry it computes. */
  function Open(epoch: nat, issued: nat, stopped: bool, clock: nat, instant: int): Option<Event> {
    if issued > Saturated(clock + AHEAD) || clock >= Saturated(issued + TTL) then None
    else
      var left := Saturated(Saturated(issued + TTL) - clock);
      Some(Event(epoch, issued, stopped, instant + if left < TTL then left else TTL))
  }

  /** Would `b` replace `a`? At the same instant a stop wins over a start. */
  predicate Newer(b: Event, a: Event) {
    b.epoch > a.epoch || (b.epoch == a.epoch
      && (b.issued > a.issued || (b.issued == a.issued && b.stopped && !a.stopped)))
  }

  function Live(entries: map<Key, Event>, now: int): map<Key, Event> {
    map k | k in entries && entries[k].expires > now :: entries[k]
  }

  /** `accept`. */
  function Accept(entries: map<Key, Event>, d: Delivery): map<Key, Event> {
    var live := Live(entries, d.now);
    if d.key in live then (if Newer(d.event, live[d.key]) then live[d.key := d.event] else live)
    else if |live| >= LIMIT then live
    else live[d.key := d.event]
  }

  /** `active`, for one device. */
  predicate Active(entries: map<Key, Event>, key: Key, epoch: nat, now: int) {
    key in entries && entries[key].epoch == epoch && entries[key].expires > now && !entries[key].stopped
  }

  function After(log: seq<Delivery>): map<Key, Event> {
    if log == [] then map[] else Accept(After(log[..|log| - 1]), log[|log| - 1])
  }

  // ---- What it should mean ----

  /** Is this delivery newer than everything the device had sent before it? */
  ghost predicate Fresh(log: seq<Delivery>, j: nat)
    requires j < |log|
  {
    forall i | 0 <= i < j && log[i].key == log[j].key :: Newer(log[j].event, log[i].event)
  }

  /** The first delivery of the last word a device said within the first `n` deliveries. */
  ghost predicate Word(log: seq<Delivery>, n: nat, key: Key, i: nat)
    requires n <= |log|
  {
    i < n && log[i].key == key && Fresh(log, i)
    && forall j | 0 <= j < n && log[j].key == key :: !Newer(log[j].event, log[i].event)
  }

  ghost predicate IsWord(log: seq<Delivery>, n: nat, key: Key, e: Event)
    requires n <= |log|
  {
    exists i: nat :: Word(log, n, key, i) && log[i].event == e
  }

  /**
   * A device is typing from the first delivery of its last word, if that is a start of this epoch, until it
   * expires.
   */
  ghost predicate Typing(log: seq<Delivery>, n: nat, key: Key, epoch: nat, now: int)
    requires n <= |log|
  {
    exists e :: IsWord(log, n, key, e) && StartOf(e, epoch, now)
  }

  predicate StartOf(e: Event, epoch: nat, now: int) {
    !e.stopped && e.epoch == epoch && now < e.expires
  }

  /** After `n` deliveries the table shows the device exactly while it is typing. */
  ghost predicate Truthful(log: seq<Delivery>, n: nat, key: Key)
    requires n <= |log|
  {
    forall epoch, now | n > 0 ==> log[n - 1].now <= now :: ShowsTyping(log, n, key, epoch, now)
  }

  ghost predicate ShowsTyping(log: seq<Delivery>, n: nat, key: Key, epoch: nat, now: int)
    requires n <= |log|
  {
    Active(After(log[..n]), key, epoch, now) <==> Typing(log, n, key, epoch, now)
  }

  /** The guard of `accept`. */
  predicate Taken(entries: map<Key, Event>, d: Delivery) {
    var live := Live(entries, d.now);
    if d.key in live then Newer(d.event, live[d.key]) else |live| < LIMIT
  }

  predicate UnexpiredStart(d: Delivery) {
    !d.event.stopped && d.now < d.event.expires
  }

  /** Does the guard, from the live entries alone, know what is new? */
  ghost predicate Judged(log: seq<Delivery>, j: nat)
    requires j < |log|
  {
    UnexpiredStart(log[j]) ==> (Taken(After(log[..j]), log[j]) <==> Fresh(log, j))
  }

  ghost predicate ClockRises(log: seq<Delivery>) {
    forall i, j | 0 <= i <= j < |log| :: log[i].now <= log[j].now
  }

  lemma AfterNext(log: seq<Delivery>, n: nat)
    requires n < |log|
    ensures After(log[..n + 1]) == Accept(After(log[..n]), log[n])
  {
    assert log[..n + 1][..n] == log[..n];
  }

  ghost predicate Delivered(log: seq<Delivery>, key: Key, event: Event) {
    exists i :: 0 <= i < |log| && log[i].key == key && log[i].event == event
  }

  /** Every entry was delivered and is live at the last delivery, unless it is that delivery itself. */
  lemma {:induction false} EntriesWereDelivered(log: seq<Delivery>, key: Key)
    requires key in After(log)
    ensures Delivered(log, key, After(log)[key])
    decreases |log|
  {
    var rest, d := log[..|log| - 1], log[|log| - 1];
    if key in After(rest) && After(log)[key] == After(rest)[key] {
      EntriesWereDelivered(rest, key);
      var i :| 0 <= i < |rest| && rest[i].key == key && rest[i].event == After(rest)[key];
      assert log[i] == rest[i];
    } else {
      assert log[|log| - 1].key == key && log[|log| - 1].event == After(log)[key];
    }
  }

  // ---- The table and the last word ----

  predicate Holds(entries: map<Key, Event>, key: Key, e: Event) {
    key in entries && entries[key] == e
  }

  /** The entry is the last word as soon as one of the two says that the device is typing. */
  ghost predicate Faithful(log: seq<Delivery>, n: nat, key: Key)
    requires n <= |log|
  {
    var entries := After(log[..n]);
    && (forall e | IsWord(log, n, key, e) && UnexpiredAt(log, n, e) :: Holds(entries, key, e))
    && (key in entries && UnexpiredAt(log, n, entries[key]) ==> IsWord(log, n, key, entries[key]))
  }

  predicate UnexpiredAt(log: seq<Delivery>, n: nat, e: Event)
    requires n <= |log|
  {
    !e.stopped && (n > 0 ==> log[n - 1].now < e.expires)
  }

  lemma NextWord(log: seq<Delivery>, n: nat, key: Key, i: nat)
    requires n < |log|
    ensures Word(log, n + 1, key, i) <==>
              if log[n].key == key && Fresh(log, n) then i == n else Word(log, n, key, i)
  {
    if log[n].key == key && Fresh(log, n) {
      if i < n && log[i].key == key {
        assert Newer(log[n].event, log[i].event);
      }
    } else if log[n].key == key && Word(log, n, key, i) {
      var j :| 0 <= j < n && log[j].key == key && !Newer(log[n].event, log[j].event);
      assert !Newer(log[j].event, log[i].event);
    }
  }

  /** The last word after one more delivery: that delivery if it is fresh, and otherwise what it was. */
  lemma NextIsWord(log: seq<Delivery>, n: nat, key: Key, e: Event)
    requires n < |log|
    ensures IsWord(log, n + 1, key, e) <==>
              if log[n].key == key && Fresh(log, n) then e == log[n].event else IsWord(log, n, key, e)
  {
    hide Fresh;
    if i: nat :| Word(log, n + 1, key, i) && log[i].event == e {
      NextWord(log, n, key, i);
    }
    if i: nat :| Word(log, n, key, i) && log[i].event == e {
      NextWord(log, n, key, i);
    }
    NextWord(log, n, key, n);
  }

  /** What the table does with one delivery of the device. */
  lemma EntryAfter(log: seq<Delivery>, n: nat)
    requires n < |log|
    ensures var key, before, after := log[n].key, After(log[..n]), After(log[..n + 1]);
            if Taken(before, log[n]) then key in after && after[key] == log[n].event
            else if key in before && before[key].expires > log[n].now then key in after && after[key] == before[key]
            else key !in after
  {
    AfterNext(log, n);
  }

  /** A delivery of another device does nothing but drop an expired entry. */
  lemma OtherEntry(log: seq<Delivery>, n: nat, key: Key)
    requires n < |log| && log[n].key != key
    ensures var before, after := After(log[..n]), After(log[..n + 1]);
            && (key in after <==> key in before && before[key].expires > log[n].now)
            && (key in after ==> after[key] == before[key])
  {
    AfterNext(log, n);
  }

  /** A fresh delivery is refused only for want of room. */
  lemma FreshIsNewer(log: seq<Delivery>, n: nat)
    requires n < |log| && Fresh(log, n)
    ensures var live := Live(After(log[..n]), log[n].now);
            Taken(After(log[..n]), log[n]) || log[n].key !in live
  {
    var key := log[n].key;
    if key in After(log[..n]) {
      EntriesWereDelivered(log[..n], key);
      var i :| 0 <= i < n && log[..n][i].key == key && log[..n][i].event == After(log[..n])[key];
      assert Newer(log[n].event, log[i].event);
    }
  }

  /** What is not fresh does not replace the last word. */
  lemma NotNewer(log: seq<Delivery>, n: nat, e: Event)
    requires n < |log| && IsWord(log, n, log[n].key, e) && !Fresh(log, n)
    requires var before := After(log[..n]);
             log[n].key in before && before[log[n].key] == e && e.expires > log[n].now
    ensures !Taken(After(log[..n]), log[n])
  {
    var i: nat :| Word(log, n, log[n].key, i) && log[i].event == e;
    var j :| 0 <= j < n && log[j].key == log[n].key && !Newer(log[n].event, log[j].event);
    assert !Newer(log[j].event, e);
  }

  lemma FaithfulOwn(log: seq<Delivery>, n: nat)
    requires n < |log| && (n > 0 ==> log[n - 1].now <= log[n].now)
    requires Faithful(log, n, log[n].key) && Judged(log, n)
    ensures Faithful(log, n + 1, log[n].key)
  {
    var key, before, after := log[n].key, After(log[..n]), After(log[..n + 1]);
    EntryAfter(log, n);
    if Fresh(log, n) {
      FreshIsNewer(log, n);
    }
    hide After, Fresh, IsWord, Newer;
    forall e | IsWord(log, n + 1, key, e) && UnexpiredAt(log, n + 1, e) ensures Holds(after, key, e) {
      NextIsWord(log, n, key, e);
      if !Fresh(log, n) {
        NotNewer(log, n, e);
      }
    }
    if key in after && UnexpiredAt(log, n + 1, after[key]) {
      NextIsWord(log, n, key, after[key]);
    }
  }

  lemma FaithfulOther(log: seq<Delivery>, n: nat, key: Key)
    requires n < |log| && log[n].key != key && (n > 0 ==> log[n - 1].now <= log[n].now) && Faithful(log, n, key)
    ensures Faithful(log, n + 1, key)
  {
    OtherEntry(log, n, key);
    hide After, IsWord;
    var after := After(log[..n + 1]);
    forall e | IsWord(log, n + 1, key, e) && UnexpiredAt(log, n + 1, e) ensures Holds(after, key, e) {
      NextIsWord(log, n, key, e);
    }
    if key in after && UnexpiredAt(log, n + 1, after[key]) {
      NextIsWord(log, n, key, after[key]);
    }
  }

  lemma {:induction false} JudgedMeansFaithful(log: seq<Delivery>, n: nat, key: Key)
    requires n <= |log| && ClockRises(log) && forall j | 0 <= j < |log| && log[j].key == key :: Judged(log, j)
    ensures Faithful(log, n, key)
    decreases n
  {
    if n > 0 {
      JudgedMeansFaithful(log, n - 1, key);
      if log[n - 1].key == key {
        FaithfulOwn(log, n - 1);
      } else {
        FaithfulOther(log, n - 1, key);
      }
    } else {
      assert log[..0] == [];
      assert After(log[..0]) == map[];
    }
  }

  lemma FaithfulIsTruthful(log: seq<Delivery>, n: nat, key: Key)
    requires n <= |log| && Faithful(log, n, key)
    ensures Truthful(log, n, key)
  {
    hide After, IsWord;
    forall epoch, now | n > 0 ==> log[n - 1].now <= now ensures ShowsTyping(log, n, key, epoch, now) {
      if Active(After(log[..n]), key, epoch, now) {
        assert StartOf(After(log[..n])[key], epoch, now);
      }
    }
  }

  // ---- Where the guard is wrong, the table is wrong ----

  /** A fresh start that finds no room is not shown. */
  lemma RefusedIsMissed(log: seq<Delivery>, j: nat)
    requires j < |log| && UnexpiredStart(log[j]) && Fresh(log, j) && !Taken(After(log[..j]), log[j])
    ensures !Truthful(log, j + 1, log[j].key)
  {
    var key, e := log[j].key, log[j].event;
    FreshIsNewer(log, j);
    EntryAfter(log, j);
    NextIsWord(log, j, key, e);
    assert StartOf(e, e.epoch, log[j].now);
    assert !ShowsTyping(log, j + 1, key, e.epoch, log[j].now);
  }

  /** A last word that was taken stays in the table until it expires. */
  lemma {:induction false} WordStays(log: seq<Delivery>, n: nat, key: Key, i: nat)
    requires ClockRises(log) && n < |log| && Word(log, n, key, i) && Taken(After(log[..i]), log[i])
    requires log[n].now < log[i].event.expires
    ensures Holds(After(log[..n]), key, log[i].event)
    decreases n
  {
    if n == i + 1 {
      EntryAfter(log, i);
    } else {
      hide After, Taken, Fresh, Newer, Holds;
      assert log[n - 1].now <= log[n].now;
      WordStays(log, n - 1, key, i);
      WordStaysOnce(log, n - 1, key, i);
    }
  }

  lemma WordStaysOnce(log: seq<Delivery>, n: nat, key: Key, i: nat)
    requires n < |log| && Word(log, n, key, i) && Word(log, n + 1, key, i)
    requires Holds(After(log[..n]), key, log[i].event) && log[n].now < log[i].event.expires
    ensures Holds(After(log[..n + 1]), key, log[i].event)
  {
    if log[n].key == key {
      assert IsWord(log, n, key, log[i].event);
      EntryAfter(log, n);
    } else {
      OtherEntry(log, n, key);
    }
  }

  /** A start that is taken though it is not fresh is shown in error, or the last word was refused before it. */
  lemma RevivedShows(log: seq<Delivery>, j: nat) returns (n: nat)
    requires ClockRises(log) && j < |log| && UnexpiredStart(log[j]) && !Fresh(log, j) && Taken(After(log[..j]), log[j])
    ensures n <= |log| && !Truthful(log, n, log[j].key)
  {
    var key, e, now := log[j].key, log[j].event, log[j].now;
    EntryAfter(log, j);
    hide After, Taken, Fresh, Newer;
    if !Typing(log, j + 1, key, e.epoch, now) {
      assert !ShowsTyping(log, j + 1, key, e.epoch, now);
      n := j + 1;
    } else {
      var word :| IsWord(log, j + 1, key, word) && StartOf(word, e.epoch, now);
      NextIsWord(log, j, key, word);
      var i: nat :| Word(log, j, key, i) && log[i].event == word;
      if Taken(After(log[..i]), log[i]) {
        WordStays(log, j, key, i);
        NotNewer(log, j, word);
      }
      assert log[i].now <= log[j].now;
      RefusedIsMissed(log, i);
      n := i + 1;
    }
  }

  /**
   * The bounded, expiring table shows a device as typing exactly while its last word is an unexpired
   * start, after every delivery and in every epoch, if and only if the guard of `accept` takes those
   * unexpired starts that are newer than everything the device has sent: what it can tell is only
   * whether they are newer than the live entry and whether there is room.
   */
  lemma TypingIsTheLastWordIff(log: seq<Delivery>, key: Key)
    requires ClockRises(log)
    ensures (forall n: nat | n <= |log| :: Truthful(log, n, key))
            <==> (forall j | 0 <= j < |log| && log[j].key == key :: Judged(log, j))
  {
    if forall j | 0 <= j < |log| && log[j].key == key :: Judged(log, j) {
      forall n: nat | n <= |log| ensures Truthful(log, n, key) {
        JudgedMeansFaithful(log, n, key);
        FaithfulIsTruthful(log, n, key);
      }
    }
    if j :| 0 <= j < |log| && log[j].key == key && !Judged(log, j) {
      if Fresh(log, j) {
        RefusedIsMissed(log, j);
      } else {
        var n := RevivedShows(log, j);
      }
    }
  }

  /**
   * A stop of a sender one second ahead expires before an older start does that arrives 100 ms later,
   * and the start revives the indicator although all clocks run evenly.
   */
  lemma RevivedCounterexample(key: Key)
    ensures var stop, start := Open(1, 1000, true, 0, 0), Open(1, 900, false, 8100, 8100);
            && stop.Some? && start.Some?
            && var log := [Delivery(key, stop.value, 0), Delivery(key, start.value, 8100)];
               && !Judged(log, 1) && !Fresh(log, 1)
               && Active(After(log), key, 1, 8899) && !Typing(log, 2, key, 1, 8899)
  {
    var stop, start := Open(1, 1000, true, 0, 0).value, Open(1, 900, false, 8100, 8100).value;
    assert stop.expires == 8000 && start.expires == 8900;
    var log := [Delivery(key, stop, 0), Delivery(key, start, 8100)];
    assert log[..1] == [log[0]] && log[..1][..0] == [] && log[..2] == log;
    assert After(log[..1]) == map[key := stop];
    assert Live(map[key := stop], 8100) == map[];
    assert log[0].key == log[1].key && !Newer(start, stop);
    assert Word(log, 2, key, 0);
    forall e | IsWord(log, 2, key, e) ensures e == stop {
      NextIsWord(log, 1, key, e);
      NextIsWord(log, 0, key, e);
    }
  }

  // ---- When the guard is right ----

  /** A device's later word expires no earlier. */
  ghost predicate ExpiryFollowsOrder(log: seq<Delivery>) {
    forall i, j | 0 <= i < |log| && 0 <= j < |log| && log[i].key == log[j].key && !Newer(log[i].event, log[j].event) ::
      log[i].event.expires <= log[j].event.expires
  }

  function Keys(log: seq<Delivery>): set<Key> {
    set d | d in log :: d.key
  }

  lemma KeysBound(log: seq<Delivery>)
    ensures After(log).Keys <= Keys(log)
  {
    forall key | key in After(log) ensures key in Keys(log) {
      EntriesWereDelivered(log, key);
      var i :| 0 <= i < |log| && log[i].key == key && log[i].event == After(log)[key];
      assert log[i] in log;
    }
  }

  /** While at most 256 devices have spoken, a new one finds room. */
  lemma RoomForNewKeys(log: seq<Delivery>)
    requires log != [] && |Keys(log)| <= LIMIT
    ensures var live := Live(After(log[..|log| - 1]), log[|log| - 1].now);
           log[|log| - 1].key !in live
           ==> |live| < LIMIT
  {
    var rest, d := log[..|log| - 1], log[|log| - 1];
    var live := Live(After(rest), d.now);
    if d.key !in live {
      KeysBound(rest);
      forall k | k in live.Keys ensures k in Keys(log) - {d.key} {
        assert k in Keys(rest);
        var e :| e in rest && e.key == k;
        assert e in log;
      }
      assert d in log;
      SubsetSize(live.Keys, Keys(log) - {d.key});
      assert |live| == |live.Keys|;
    }
  }

  lemma PrefixKeys(log: seq<Delivery>)
    requires log != []
    ensures |Keys(log[..|log| - 1])| <= |Keys(log)|
  {
    var rest := log[..|log| - 1];
    assert Keys(rest) <= Keys(log) by {
      forall k | k in Keys(rest) ensures k in Keys(log) {
        var e :| e in rest && e.key == k;
        assert e in log;
      }
    }
    SubsetSize(Keys(rest), Keys(log));
  }

  lemma {:induction false} KeysOfPrefix(log: seq<Delivery>, n: nat)
    requires n <= |log|
    ensures |Keys(log[..n])| <= |Keys(log)|
    decreases |log|
  {
    if n < |log| {
      PrefixKeys(log);
      assert log[..|log| - 1][..n] == log[..n];
      KeysOfPrefix(log[..|log| - 1], n);
    } else {
      assert log[..n] == log;
    }
  }

  /** With at most 256 devices there is room for every one of them. */
  lemma FreshIsTaken(log: seq<Delivery>, j: nat)
    requires j < |log| && |Keys(log)| <= LIMIT
    ensures Fresh(log, j) ==> Taken(After(log[..j]), log[j])
    ensures log[j].key !in Live(After(log[..j]), log[j].now) ==> Taken(After(log[..j]), log[j])
  {
    assert log[..j + 1][..j] == log[..j];
    KeysOfPrefix(log, j + 1);
    RoomForNewKeys(log[..j + 1]);
    if Fresh(log, j) {
      FreshIsNewer(log, j);
    }
  }

  lemma {:induction false} WordExists(log: seq<Delivery>, n: nat, key: Key, i: nat)
    requires i < n <= |log| && log[i].key == key
    ensures exists e :: IsWord(log, n, key, e)
    decreases n
  {
    hide IsWord, Newer;
    if log[n - 1].key == key && Fresh(log, n - 1) {
      NextIsWord(log, n - 1, key, log[n - 1].event);
    } else {
      var m := i;
      if i == n - 1 {
        m :| 0 <= m < n - 1 && log[m].key == key && !Newer(log[n - 1].event, log[m].event);
      }
      WordExists(log, n - 1, key, m);
      var e :| IsWord(log, n - 1, key, e);
      NextIsWord(log, n - 1, key, e);
    }
  }

  lemma OneWord(log: seq<Delivery>, n: nat, key: Key, a: Event, b: Event)
    requires n <= |log| && IsWord(log, n, key, a) && IsWord(log, n, key, b)
    ensures a == b
  {
    var i: nat :| Word(log, n, key, i) && log[i].event == a;
    var j: nat :| Word(log, n, key, j) && log[j].event == b;
    assert i < j || j < i || i == j;
  }

  /** Is this delivery news, or does it at least come while the last word before it is unexpired? */
  ghost predicate Prompt(log: seq<Delivery>, j: nat)
    requires j < |log|
  {
    Fresh(log, j) || forall e | IsWord(log, j, log[j].key, e) :: log[j].now < e.expires
  }

  ghost predicate StartsPrompt(log: seq<Delivery>, key: Key) {
    forall j | 0 <= j < |log| && log[j].key == key && UnexpiredStart(log[j]) :: Prompt(log, j)
  }

  ghost predicate StopsPrompt(log: seq<Delivery>, key: Key) {
    forall j | 0 <= j < |log| && log[j].key == key && log[j].event.stopped :: Prompt(log, j)
  }

  /** A prompt delivery is taken exactly if it is news: what it would have to replace is still there. */
  lemma PromptIsJudged(log: seq<Delivery>, j: nat)
    requires ClockRises(log) && |Keys(log)| <= LIMIT && j < |log| && Prompt(log, j)
    ensures Taken(After(log[..j]), log[j]) <==> Fresh(log, j)
  {
    FreshIsTaken(log, j);
    if !Fresh(log, j) {
      var m :| 0 <= m < j && log[m].key == log[j].key && !Newer(log[j].event, log[m].event);
      WordExists(log, j, log[j].key, m);
      var e :| IsWord(log, j, log[j].key, e);
      var i: nat :| Word(log, j, log[j].key, i) && log[i].event == e;
      FreshIsTaken(log, i);
      WordStays(log, j, log[j].key, i);
      NotNewer(log, j, e);
    }
  }

  /** Where the guard is right about starts and the stops are prompt, a live entry is the last word. */
  lemma {:induction false} EntryIsWord(log: seq<Delivery>, n: nat, key: Key)
    requires ClockRises(log) && |Keys(log)| <= LIMIT && n <= |log| && StopsPrompt(log, key)
    requires forall j | 0 <= j < |log| && log[j].key == key :: Judged(log, j)
    requires key in After(log[..n]) && n > 0 && log[n - 1].now < After(log[..n])[key].expires
    ensures IsWord(log, n, key, After(log[..n])[key])
    decreases n
  {
    var m, e := n - 1, After(log[..n])[key];
    NextIsWord(log, m, key, e);
    if log[m].key == key {
      EntryAfter(log, m);
      FreshIsTaken(log, m);
      if Taken(After(log[..m]), log[m]) && log[m].event.stopped {
        PromptIsJudged(log, m);
      }
    } else {
      OtherEntry(log, m, key);
    }
    if !(log[m].key == key && Taken(After(log[..m]), log[m])) {
      assert m > 0 by { assert log[..0] == []; }
      assert log[m - 1].now <= log[m].now;
      EntryIsWord(log, m, key);
    }
  }

  lemma JudgedStartsArePrompt(log: seq<Delivery>, key: Key)
    requires ClockRises(log) && |Keys(log)| <= LIMIT && StopsPrompt(log, key)
    requires forall j | 0 <= j < |log| && log[j].key == key :: Judged(log, j)
    ensures StartsPrompt(log, key)
  {
    forall j | 0 <= j < |log| && log[j].key == key && UnexpiredStart(log[j]) ensures Prompt(log, j) {
      FreshIsTaken(log, j);
      if !Fresh(log, j) {
        var entry := After(log[..j])[key];
        assert j > 0 by { assert log[..0] == []; }
        assert log[j - 1].now <= log[j].now;
        EntryIsWord(log, j, key);
        forall e | IsWord(log, j, key, e) ensures log[j].now < e.expires {
          OneWord(log, j, key, e, entry);
        }
      }
    }
  }

  /**
   * For at most 256 devices, on the deliveries alone: the table is right after every delivery if every
   * unexpired start that is not news comes while the last word before it is unexpired. Where the stops
   * come that promptly, this is the only way.
   */
  lemma TypingFromDeliveries(log: seq<Delivery>, key: Key)
    requires ClockRises(log) && |Keys(log)| <= LIMIT
    ensures StartsPrompt(log, key) ==> forall n: nat | n <= |log| :: Truthful(log, n, key)
    ensures StopsPrompt(log, key) ==>
              (StartsPrompt(log, key) <==> forall n: nat | n <= |log| :: Truthful(log, n, key))
  {
    TypingIsTheLastWordIff(log, key);
    if StartsPrompt(log, key) {
      forall j | 0 <= j < |log| && log[j].key == key ensures Judged(log, j) {
        if UnexpiredStart(log[j]) {
          PromptIsJudged(log, j);
        }
      }
    } else if StopsPrompt(log, key) && forall n: nat | n <= |log| :: Truthful(log, n, key) {
      JudgedStartsArePrompt(log, key);
    }
  }

  /**
   * Without prompt stops it is not: here an old stop arrives after the last word has expired and keeps
   * out the older start after it, which is not prompt either.
   */
  lemma LateStopCounterexample(key: Key)
    ensures var word, stop := Open(1, 1000, false, 0, 0), Open(1, 950, true, 8100, 8100);
            var start := Open(1, 900, false, 8200, 8200);
            && word.Some? && stop.Some? && start.Some?
            && var first, second := Delivery(key, word.value, 0), Delivery(key, stop.value, 8100);
               var log := [first, second, Delivery(key, start.value, 8200)];
               !StartsPrompt(log, key) && forall n: nat | n <= |log| :: Truthful(log, n, key)
  {
    var word, stop := Open(1, 1000, false, 0, 0).value, Open(1, 950, true, 8100, 8100).value;
    var start := Open(1, 900, false, 8200, 8200).value;
    assert word.expires == 8000 && stop.expires == 8950 && start.expires == 8900;
    var log := [Delivery(key, word, 0), Delivery(key, stop, 8100), Delivery(key, start, 8200)];
    assert log[..0] == [];
    AfterNext(log, 0);
    assert After(log[..1]) == map[key := word];
    AfterNext(log, 1);
    assert Live(map[key := word], 8100) == map[];
    assert After(log[..2]) == map[key := stop];
    assert Live(map[key := stop], 8200) == map[key := stop];
    assert !Newer(start, word) && !Fresh(log, 2) && !Taken(After(log[..2]), log[2]);
    assert Taken(After(log[..0]), log[0]) && Fresh(log, 0);
    forall j | 0 <= j < |log| && log[j].key == key ensures Judged(log, j) {
      assert j == 0 || j == 1 || j == 2;
    }
    TypingIsTheLastWordIff(log, key);
    assert Word(log, 2, key, 0);
    assert IsWord(log, 2, key, word);
    assert !Prompt(log, 2);
  }

  /**
   * So where words expire in order, no late or repeated start revives an indicator, even after its
   * tombstone has expired.
   */
  lemma TypingIsTheLastWord(log: seq<Delivery>, key: Key, n: nat)
    requires ClockRises(log) && ExpiryFollowsOrder(log) && |Keys(log)| <= LIMIT && n <= |log|
    ensures Truthful(log, n, key)
  {
    forall j, e | 0 <= j < |log| && log[j].key == key && UnexpiredStart(log[j])
                  && !Fresh(log, j) && IsWord(log, j, key, e)
      ensures log[j].now < e.expires
    {
      var m :| 0 <= m < j && log[m].key == key && !Newer(log[j].event, log[m].event);
      var i: nat :| Word(log, j, key, i) && log[i].event == e;
      assert !Newer(log[m].event, log[i].event);
      assert !Newer(log[j].event, log[i].event);
    }
    TypingFromDeliveries(log, key);
  }

  /** This event was issued no later than it was opened, by clocks that differ by a constant. */
  ghost predicate InStep(e: Event, offset: int) {
    exists clock: nat, instant: int ::
      clock == instant + offset && e.issued <= clock && e.issued + TTL <= U64_MAX
      && Open(e.epoch, e.issued, e.stopped, clock, instant) == Some(e)
  }

  /** Expiries are in order where no sender is ahead, and no sender goes back with a new epoch. */
  lemma StepKeepsOrder(log: seq<Delivery>, offset: int)
    requires forall i | 0 <= i < |log| :: InStep(log[i].event, offset)
    requires forall i, j | 0 <= i < |log| && 0 <= j < |log| && log[i].key == log[j].key
             && log[i].event.epoch < log[j].event.epoch ::
               log[i].event.issued <= log[j].event.issued
    ensures ExpiryFollowsOrder(log)
  {
    forall i | 0 <= i < |log| ensures log[i].event.expires == log[i].event.issued + TTL - offset {
      var e := log[i].event;
      var clock: nat, instant: int :| clock == instant + offset && e.issued <= clock && e.issued + TTL <= U64_MAX
                                     && Open(e.epoch, e.issued, e.stopped, clock, instant) == Some(e);
    }
  }

  /** The table never holds more than 256 devices. */
  lemma {:induction false} TableIsBounded(log: seq<Delivery>)
    ensures |After(log)| <= LIMIT
    decreases |log|
  {
    if log != [] {
      var rest, d := log[..|log| - 1], log[|log| - 1];
      TableIsBounded(rest);
      var live := Live(After(rest), d.now);
      assert live.Keys <= After(rest).Keys;
      SubsetSize(live.Keys, After(rest).Keys);
      assert |live| == |live.Keys| && |After(rest)| == |After(rest).Keys|;
    }
  }

  class TypingState {
    var entries: map<Key, Event>
    ghost var log: seq<Delivery>

    constructor ()
      ensures entries == map[] && log == [] && entries == After(log)
    {
      entries, log := map[], [];
    }

    method AcceptEvent(key: Key, typing: bool, event: Event, now: int)
      requires entries == After(log)
      modifies this
      ensures entries == After(log) && |entries| <= LIMIT
      ensures log == if typing then old(log) + [Delivery(key, event, now)] else old(log)
    {
      TableIsBounded(log);
      if !typing {
        return;
      }
      ghost var d := Delivery(key, event, now);
      log := log + [d];
      assert log[..|log| - 1] == old(log);
      TableIsBounded(log);
      entries := Live(entries, now);
      if key in entries {
        var e := entries[key];
        if e.epoch > event.epoch
           || (e.epoch == event.epoch
               && (e.issued > event.issued || (e.issued == event.issued && (e.stopped || !event.stopped)))) {
          return;
        }
      } else if |entries| >= LIMIT {
        return;
      }
      entries := entries[key := event];
    }
  }
}
