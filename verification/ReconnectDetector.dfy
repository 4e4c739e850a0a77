/** The terminal reader that watches a chunked byte stream for the client's "server
    unavailable" messages.  Bytes are characters with codes below 256. */
module ReconnectDetector {
  import opened Base

  const TAIL_BYTES: nat := 512
  const RECOVERY_DELAY: nat := 2 * SECOND

  const MESSAGES: seq<string> := [
    "Nothing received from server on UDP port",
    "Timed out waiting for server",
    "without contact",
    "Last contact",
    "Last reply",
    "did not make a successful connection"
  ]

  datatype Observation = Unavailable | Recovered | Unchanged

  datatype Chunk = Chunk(bytes: string, now: Instant)

  datatype Status = Reconnecting | Online

  /** A status event, and the number of the chunk that caused it. */
  datatype Event = Event(chunk: nat, status: Status)

  // ---- what the whole stream says ---------------------------------------------

  function Stream(history: seq<Chunk>): string {
    if history == [] then "" else Stream(history[..|history| - 1]) + history[|history| - 1].bytes
  }

  predicate OccursAt(text: string, message: string, start: nat) {
    start + |message| <= |text| && text[start..start + |message|] == message
  }

  /** Some message has an occurrence in `text` whose end lies beyond `position`. */
  predicate SomeMessageEndsAfter(text: string, position: nat) {
    exists i, start: nat | 0 <= i < |MESSAGES| && 0 <= start <= |text| ::
      OccursAt(text, MESSAGES[i], start) && start + |MESSAGES[i]| > position
  }

  /** Chunk `k` brings the last byte of an occurrence somewhere in the stream so far. */
  ghost predicate Hit(history: seq<Chunk>, k: nat)
    requires k < |history|
  {
    SomeMessageEndsAfter(Stream(history[..k + 1]), |Stream(history[..k])|)
  }

  /** Chunk `j` was the last hit, and no chunk has come two seconds or more after it. */
  ghost predicate Awaits(history: seq<Chunk>, j: nat)
    requires j < |history|
  {
    Hit(history, j) &&
    forall i :: j < i < |history| ==> !Hit(history, i) && history[i].now - history[j].now < RECOVERY_DELAY
  }

  ghost predicate Waiting(history: seq<Chunk>) {
    exists j: nat :: j < |history| && Awaits(history, j)
  }

  /** What a reader of the whole stream answers to the next chunk. */
  ghost function Answer(history: seq<Chunk>, chunk: Chunk): Observation {
    if Hit(history + [chunk], |history|) then Observation.Unavailable
    else if exists j: nat :: j < |history| && Awaits(history, j) && chunk.now - history[j].now >= RECOVERY_DELAY
    then Recovered
    else Unchanged
  }

  /** `last` is the time of the hit that is still awaited, if there is one. */
  ghost predicate Remembers(history: seq<Chunk>, last: Option<Instant>) {
    && (last.Some? <==> Waiting(history))
    && (forall j: nat :: j < |history| && Awaits(history, j) ==> last == Some(history[j].now))
  }

  // ---- the detector -----------------------------------------------------------

  function Last(text: string, size: nat): string {
    if |text| <= size then text else text[|text| - size..]
  }

  class Detector {
    var tail: string
    var lastUnavailable: Option<Instant>
    ghost var history: seq<Chunk>

    ghost predicate Valid()
      reads this
    {
      && tail == Last(Stream(history), TAIL_BYTES)
      && Remembers(history, lastUnavailable)
    }

    constructor ()
      ensures Valid() && history == []
    {
      tail, lastUnavailable, history := "", None, [];
    }

    /** Whatever the chunking, the answer is the one a reader of the whole stream would give. */
    method Observe(bytes: string, now: Instant) returns (answer: Observation)
      requires Valid()
      modifies this
      ensures Valid() && history == old(history) + [Chunk(bytes, now)]
      ensures answer == Answer(old(history), Chunk(bytes, now))
    {
      ghost var before := Stream(history);
      ghost var grown := history + [Chunk(bytes, now)];
      StreamGrows(history, Chunk(bytes, now));
      var previous := |tail|;
      var combined := tail + bytes;
      var unavailable := SomeMessageEndsAfter(combined, previous);
      TailSuffices(before, bytes);
      assert grown[..|history|] == history && grown[..|history| + 1] == grown;
      tail := Last(combined, TAIL_BYTES);
      MemoryFollows(history, Chunk(bytes, now), lastUnavailable);
      history := grown;
      if unavailable {
        lastUnavailable := Some(now);
        answer := Observation.Unavailable;
      } else if lastUnavailable.Some? && now - lastUnavailable.value >= RECOVERY_DELAY {
        lastUnavailable := None;
        answer := Recovered;
      } else {
        answer := Unchanged;
      }
    }
  }

  // ---- the tail is enough -----------------------------------------------------

  lemma StreamGrows(history: seq<Chunk>, chunk: Chunk)
    ensures Stream(history + [chunk]) == Stream(history) + chunk.bytes
  {
    assert (history + [chunk])[..|history|] == history;
  }

  /** Dropping all but the last 512 bytes hides no occurrence that ends in the next chunk. */
  lemma OccurrenceInTail(before: string, bytes: string, message: string, start: nat, cut: nat)
    requires |before| - |Last(before, TAIL_BYTES)| == cut <= start
    ensures OccursAt(before + bytes, message, start)
            <==> OccursAt(Last(before, TAIL_BYTES) + bytes, message, start - cut)
  {
    var combined := Last(before, TAIL_BYTES) + bytes;
    assert combined == (before + bytes)[cut..];
    if start + |message| <= |before + bytes| {
      assert combined[start - cut..start - cut + |message|] == (before + bytes)[start..start + |message|];
    }
  }

  lemma MessagesFitInTheTail(i: nat)
    requires i < |MESSAGES|
    ensures 1 <= |MESSAGES[i]| <= TAIL_BYTES
  {
  }

  lemma TailSuffices(before: string, bytes: string)
    ensures var tail := Last(before, TAIL_BYTES);
            && (SomeMessageEndsAfter(tail + bytes, |tail|) <==> SomeMessageEndsAfter(before + bytes, |before|))
            && Last(tail + bytes, TAIL_BYTES) == Last(before + bytes, TAIL_BYTES)
  {
    var tail := Last(before, TAIL_BYTES);
    var cut := |before| - |tail|;
    if i, start: nat :| 0 <= i < |MESSAGES| && 0 <= start <= |tail + bytes|
                        && OccursAt(tail + bytes, MESSAGES[i], start) && start + |MESSAGES[i]| > |tail| {
      OccurrenceInTail(before, bytes, MESSAGES[i], start + cut, cut);
    }
    if i, start: nat :| 0 <= i < |MESSAGES| && 0 <= start <= |before + bytes|
                        && OccursAt(before + bytes, MESSAGES[i], start) && start + |MESSAGES[i]| > |before| {
      MessagesFitInTheTail(i);
      OccurrenceInTail(before, bytes, MESSAGES[i], start, cut);
    }
    assert tail + bytes == (before + bytes)[cut..];
  }

  /** A new chunk leaves the earlier hits, and decides which of them is still awaited. */
  lemma AwaitsGrows(history: seq<Chunk>, chunk: Chunk)
    ensures var grown := history + [chunk];
            && (forall j :: 0 <= j < |history| ==> (Hit(grown, j) <==> Hit(history, j)))
            && (forall j :: 0 <= j < |history| ==>
                              (Awaits(grown, j) <==>
                               Awaits(history, j) && !Hit(grown, |history|)
                               && chunk.now - history[j].now < RECOVERY_DELAY))
            && (Awaits(grown, |history|) <==> Hit(grown, |history|))
  {
    var grown := history + [chunk];
    forall j | 0 <= j < |history| ensures Hit(grown, j) <==> Hit(history, j) {
      assert grown[..j] == history[..j] && grown[..j + 1] == history[..j + 1];
    }
    forall j | 0 <= j < |history|
      ensures Awaits(grown, j) <==> Awaits(history, j) && !Hit(grown, |history|)
                                    && chunk.now - history[j].now < RECOVERY_DELAY
    {
      assert grown[|history|] == chunk && grown[j] == history[j];
    }
  }

  lemma MemoryFollows(history: seq<Chunk>, chunk: Chunk, last: Option<Instant>)
    requires Remembers(history, last)
    ensures var grown := history + [chunk];
            match Answer(history, chunk)
            case Unavailable => Hit(grown, |history|) && Remembers(grown, Some(chunk.now))
            case Recovered => !Hit(grown, |history|) && Remembers(grown, None)
                              && last.Some? && chunk.now - last.value >= RECOVERY_DELAY
            case Unchanged => !Hit(grown, |history|) && Remembers(grown, last)
                              && (last.Some? ==> chunk.now - last.value < RECOVERY_DELAY)
  {
    AwaitsGrows(history, chunk);
    var grown := history + [chunk];
    if Answer(history, chunk) == Unchanged && Waiting(history) {
      var j: nat :| j < |history| && Awaits(history, j);
      assert Awaits(grown, j);
    }
  }

  // ---- the reader's status events ---------------------------------------------

  /** The events a reader of the whole stream would send: one at each change of `Waiting`. */
  ghost function Events(history: seq<Chunk>): seq<Event> {
    if history == [] then [] else
      var k := |history| - 1;
      Events(history[..k]) + Change(k, Waiting(history[..k]), Waiting(history))
  }

  function Change(k: nat, before: bool, after: bool): seq<Event> {
    if before == after then [] else [Event(k, if after then Reconnecting else Online)]
  }

  /** One chunk changes the status exactly as its answer says. */
  lemma WaitingFollows(history: seq<Chunk>, chunk: Chunk, last: Option<Instant>)
    requires Remembers(history, last)
    ensures match Answer(history, chunk)
            case Unavailable => Waiting(history + [chunk])
            case Recovered => Waiting(history) && !Waiting(history + [chunk])
            case Unchanged => Waiting(history + [chunk]) == Waiting(history)
  {
    MemoryFollows(history, chunk, last);
  }

  lemma EventsGrow(history: seq<Chunk>, chunk: Chunk)
    ensures var grown := history + [chunk];
            Events(grown) == Events(history) + Change(|history|, Waiting(history), Waiting(grown))
  {
    assert (history + [chunk])[..|history|] == history;
  }

  method ReadLoop(chunks: seq<Chunk>) returns (events: seq<Event>)
    ensures events == Events(chunks)
  {
    events := [];
    var reconnecting := false;
    var detector := new Detector();
    var k := 0;
    while k < |chunks|
      invariant 0 <= k <= |chunks|
      invariant fresh(detector) && detector.Valid() && detector.history == chunks[..k]
      invariant reconnecting == Waiting(chunks[..k])
      invariant events == Events(chunks[..k])
    {
      assert chunks[..k + 1] == chunks[..k] + [chunks[k]];
      WaitingFollows(chunks[..k], chunks[k], detector.lastUnavailable);
      EventsGrow(chunks[..k], chunks[k]);
      var observation := detector.Observe(chunks[k].bytes, chunks[k].now);
      if observation == Observation.Unavailable && !reconnecting {
        reconnecting := true;
        events := events + [Event(k, Reconnecting)];
      } else if reconnecting && observation == Recovered {
        reconnecting := false;
        events := events + [Event(k, Online)];
      }
      k := k + 1;
    }
    assert chunks[..k] == chunks;
  }

  /** Statuses alternate, beginning with "reconnecting"; the last one says what holds now. */
  lemma {:induction false} EventsAlternate(history: seq<Chunk>)
    ensures var events := Events(history);
            && (forall i :: 0 <= i < |events| ==> events[i].status == if i % 2 == 0 then Reconnecting else Online)
            && (Waiting(history) <==> |events| % 2 == 1)
  {
    if history != [] {
      EventsAlternate(history[..|history| - 1]);
    }
  }

  ghost predicate LastHitBefore(history: seq<Chunk>, j: nat, k: nat)
    requires j < k < |history|
  {
    Hit(history, j) && forall i :: j < i <= k ==> !Hit(history, i)
  }

  /** Why an event is sent: "reconnecting" on a chunk that completes a message, "online" on the
      first chunk that comes two seconds or more after the last such chunk. */
  ghost predicate Justified(history: seq<Chunk>, event: Event) {
    && event.chunk < |history|
    && (event.status == Reconnecting ==> Hit(history, event.chunk))
    && (event.status == Online ==>
          exists j: nat :: j < event.chunk && LastHitBefore(history, j, event.chunk)
                           && history[event.chunk].now - history[j].now >= RECOVERY_DELAY)
  }

  lemma JustifiedStays(history: seq<Chunk>, chunk: Chunk, event: Event)
    requires Justified(history, event)
    ensures Justified(history + [chunk], event)
  {
    AwaitsGrows(history, chunk);
    if event.status == Online {
      var j: nat :| j < event.chunk && LastHitBefore(history, j, event.chunk)
                    && history[event.chunk].now - history[j].now >= RECOVERY_DELAY;
      assert LastHitBefore(history + [chunk], j, event.chunk);
    }
  }

  lemma ChangeIsJustified(history: seq<Chunk>, chunk: Chunk)
    requires Waiting(history + [chunk]) != Waiting(history)
    ensures var grown := history + [chunk];
            Justified(grown, Event(|history|, if Waiting(grown) then Reconnecting else Online))
  {
    var grown := history + [chunk];
    AwaitsGrows(history, chunk);
    if Waiting(history) {
      var j: nat :| j < |history| && Awaits(history, j);
      assert !Awaits(grown, j) && !Awaits(grown, |history|);
      assert LastHitBefore(grown, j, |history|);
    }
  }

  lemma {:induction false} EveryEventIsJustified(history: seq<Chunk>)
    ensures forall i :: 0 <= i < |Events(history)| ==> Justified(history, Events(history)[i])
    ensures forall i :: 0 < i < |Events(history)| ==> Events(history)[i - 1].chunk < Events(history)[i].chunk
  {
    if history != [] {
      var k := |history| - 1;
      EveryEventIsJustified(history[..k]);
      assert history == history[..k] + [history[k]];
      var earlier := Events(history[..k]);
      forall i | 0 <= i < |earlier| ensures Justified(history, earlier[i]) {
        JustifiedStays(history[..k], history[k], earlier[i]);
      }
      if Waiting(history) != Waiting(history[..k]) {
        ChangeIsJustified(history[..k], history[k]);
      }
    }
  }
}
