/** Per-connection stream state (`_Session`): claims, control queues and the byte
    accounting that bounds them. */
module Session {
  import opened ByteStrings

  const STREAM_MAX_BYTES: nat := 4 * 1024 * 1024
  const SESSION_MAX_BYTES: nat := 16 * 1024 * 1024
  const MAX_STREAMS: nat := 64
  const MAX_COMMANDS: nat := 32

  datatype Item = Data(bytes: Bytes) | Resize(cols: int, rows: int) | Pause | Resume | Close

  function SizeOf(item: Item): nat
  {
    if item.Data? then |item.bytes| else 0
  }

  datatype Verdict = Ignored | Refused | Dropped | Accepted

  /** What `_stream_ctrl` does with a frame for a stream whose queue holds `queued`
      items (`maxsize` 0: unbounded) and whose counted bytes are `counted`, of the
      session's `total`. */
  function Admit(closing: bool, queued: nat, maxsize: nat, counted: nat, total: int, item: Item): Verdict
  {
    if closing then Ignored
    else if item.Data? && (counted + |item.bytes| > STREAM_MAX_BYTES || total + |item.bytes| > SESSION_MAX_BYTES)
    then Refused
    else if maxsize > 0 && queued >= maxsize then Dropped
    else Accepted
  }

  /** Counted on top of what is, the item breaks neither the stream's 4 MiB nor the
      session's 16 MiB. */
  predicate Fits(counted: nat, total: int, item: Item)
  {
    counted + SizeOf(item) <= 4194304 && total + SizeOf(item) <= 16777216
  }

  /** What fits is taken: a frame is refused exactly when it is data that would break a
      ceiling, and dropped exactly when it would not and the queue is full. */
  lemma AdmitExactly(closing: bool, queued: nat, maxsize: nat, counted: nat, total: int, item: Item)
    ensures var verdict := Admit(closing, queued, maxsize, counted, total, item);
            var fits := Fits(counted, total, item);
            var room := maxsize == 0 || queued < maxsize;
            && (verdict.Ignored? <==> closing)
            && (verdict.Refused? <==> !closing && item.Data? && !fits)
            && (verdict.Accepted? <==> !closing && (item.Data? ==> fits) && room)
            && (verdict.Dropped? <==> !closing && (item.Data? ==> fits) && !room)
  {}

  function Max(a: int, b: int): int
  {
    if a >= b then a else b
  }

  /** Bytes `_drain_stream_bytes` takes off a count. */
  function Drained(counted: nat, count: nat): nat
  {
    if count <= counted then count else counted
  }

  /** What a completion callback makes of `pending_commands`: `max(0, pending - 1)`. */
  function Decremented(pending: nat): nat
  {
    if pending == 0 then 0 else pending - 1
  }

  datatype Slot = Full | Submitted | NotSubmitted

  /** An `asyncio.Queue`: bounded unless `maxsize` is 0. */
  class CtrlQueue {
    const maxsize: nat
    var items: seq<Item>

    constructor (maxsize: nat)
      ensures this.maxsize == maxsize && items == []
    {
      this.maxsize := maxsize;
      items := [];
    }

    method PutNowait(item: Item) returns (ok: bool)
      modifies this
      ensures ok == (maxsize == 0 || |old(items)| < maxsize)
      ensures items == old(items) + if ok then [item] else []
    {
      ok := maxsize == 0 || |items| < maxsize;
      if ok {
        items := items + [item];
      }
    }
  }

  /** The sum of all counts. */
  ghost function Sum(counts: map<string, nat>): nat
  {
    if counts == map[] then 0
    else
      var id :| id in counts;
      counts[id] + Sum(counts - {id})
  }

  lemma {:induction false} SumWithout(counts: map<string, nat>, id: string)
    requires id in counts
    ensures Sum(counts) == counts[id] + Sum(counts - {id})
    decreases |counts|
  {
    var first :| first in counts && Sum(counts) == counts[first] + Sum(counts - {first});
    if first != id {
      SumWithout(counts - {first}, id);
      SumWithout(counts - {id}, first);
      assert counts - {first} - {id} == counts - {id} - {first};
    }
  }

  lemma SumUpdate(counts: map<string, nat>, id: string, n: nat)
    ensures Sum(counts[id := n]) == n + Sum(counts - {id})
    ensures id in counts ==> Sum(counts[id := n]) == Sum(counts) - counts[id] + n
    ensures id !in counts ==> Sum(counts[id := n]) == Sum(counts) + n
  {
    SumWithout(counts[id := n], id);
    assert counts[id := n] - {id} == counts - {id};
    if id in counts {
      SumWithout(counts, id);
    } else {
      assert counts - {id} == counts;
    }
  }

  datatype ClaimError = MissingId | InUse | TooMany | NoError

  class Session {
    var streams: map<string, CtrlQueue>
    var streamBytes: map<string, nat>
    var totalStreamBytes: int
    var closingStreams: set<string>
    var stopEvents: set<string>
    var pendingCommands: nat

    /** What holds between any two operations. */
    ghost predicate Valid()
      reads this
    {
      && streamBytes.Keys == streams.Keys
      && totalStreamBytes == Sum(streamBytes)
      && (forall id | id in streamBytes :: streamBytes[id] <= STREAM_MAX_BYTES)
      && totalStreamBytes <= SESSION_MAX_BYTES
      && |streams| <= MAX_STREAMS
      && closingStreams <= streams.Keys
      && "" !in streams
      && pendingCommands <= MAX_COMMANDS
    }

    constructor ()
      ensures Valid() && streams == map[] && stopEvents == {} && pendingCommands == 0
    {
      streams, streamBytes, totalStreamBytes := map[], map[], 0;
      closingStreams, stopEvents, pendingCommands := {}, {}, 0;
    }

    /** `_claim_stream`: register a queue under a new id. */
    method ClaimStream(id: string, q: CtrlQueue) returns (error: ClaimError)
      requires Valid()
      modifies this`streams, this`streamBytes
      ensures Valid()
      ensures error == if id == "" then MissingId else if id in old(streams) then InUse
                       else if |old(streams)| >= MAX_STREAMS then TooMany else NoError
      ensures error.NoError? ==> streams == old(streams)[id := q] && streamBytes == old(streamBytes)[id := 0]
      ensures !error.NoError? ==> streams == old(streams) && streamBytes == old(streamBytes)
    {
      hide Sum;
      if id == "" {
        return MissingId;
      }
      if id in streams {
        return InUse;
      }
      if |streams| >= MAX_STREAMS {
        return TooMany;
      }
      SumUpdate(streamBytes, id, 0);
      streams := streams[id := q];
      streamBytes := streamBytes[id := 0];
      return NoError;
    }

    /** `_release_stream`: drop the mapping if it is the caller's own. */
    method ReleaseStream(id: string, q: CtrlQueue)
      requires Valid()
      modifies this`streams, this`streamBytes, this`totalStreamBytes, this`stopEvents, this`closingStreams
      ensures Valid() && stopEvents == old(stopEvents) - {id} && closingStreams == old(closingStreams) - {id}
      ensures var own := id in old(streams) && old(streams)[id] == q;
              if own then streams == old(streams) - {id} && streamBytes == old(streamBytes) - {id}
                          && totalStreamBytes == old(totalStreamBytes) - old(streamBytes)[id]
              else streams == old(streams) && streamBytes == old(streamBytes)
                   && totalStreamBytes == old(totalStreamBytes)
    {
      if id in streams && streams[id] == q {
        SumWithout(streamBytes, id);
        var remaining := streamBytes[id];
        streams := streams - {id};
        streamBytes := streamBytes - {id};
        totalStreamBytes := Max(0, totalStreamBytes - remaining);
      }
      stopEvents := stopEvents - {id};
      closingStreams := closingStreams - {id};
    }

    /** `_stream_ctrl`: queue a frame for its stream, or refuse it. */
    method StreamCtrl(id: string, item: Item) returns (ghost verdict: Verdict)
      requires Valid()
      modifies this`streamBytes, this`totalStreamBytes, this`closingStreams, if id in streams then {streams[id]} else {}
      ensures Valid()
      ensures id !in streams || id in old(closingStreams) <==> verdict == Ignored
      ensures verdict.Accepted? <==>
                && id in streams && id !in old(closingStreams)
                && (item.Data? ==> Fits(old(streamBytes)[id], old(totalStreamBytes), item))
                && (streams[id].maxsize == 0 || |old(streams[id].items)| < streams[id].maxsize)
      ensures verdict.Refused? <==>
                && id in streams && id !in old(closingStreams)
                && item.Data? && !Fits(old(streamBytes)[id], old(totalStreamBytes), item)
      ensures id in streams ==> verdict == Admit(id in old(closingStreams), |old(streams[id].items)|,
            streams[id].maxsize,
                                                 old(streamBytes)[id], old(totalStreamBytes), item)
      ensures verdict.Accepted? ==>
                streams[id].items == old(streams[id].items) + [item] && closingStreams == old(closingStreams)
                && streamBytes == old(streamBytes)[id := old(streamBytes)[id] + SizeOf(item)]
                && totalStreamBytes == old(totalStreamBytes) + SizeOf(item)
      ensures verdict.Refused? ==>
                closingStreams == old(closingStreams) + {id}
                && streams[id].items == old(streams[id].items)
                   + if streams[id].maxsize == 0 || |old(streams[id].items)| < streams[id].maxsize then [Close] else []
      ensures !verdict.Accepted? ==> streamBytes == old(streamBytes) && totalStreamBytes == old(totalStreamBytes)
      ensures verdict.Ignored? || verdict.Dropped? ==> closingStreams == old(closingStreams)
      ensures (verdict.Ignored? || verdict.Dropped?) && id in streams ==> streams[id].items == old(streams[id].items)
    {
      hide Sum;
      if id !in streams || id in closingStreams {
        return Ignored;
      }
      var q := streams[id];
      if item.Data? {
        var buffered := streamBytes[id] + |item.bytes|;
        var totalBuffered := totalStreamBytes + |item.bytes|;
        if buffered > STREAM_MAX_BYTES || totalBuffered > SESSION_MAX_BYTES {
          closingStreams := closingStreams + {id};
          var _ := q.PutNowait(Close);
          return Refused;
        }
        var ok := q.PutNowait(item);
        if !ok {
          return Dropped;
        }
        SumUpdate(streamBytes, id, buffered);
        streamBytes := streamBytes[id := buffered];
        totalStreamBytes := totalBuffered;
        return Accepted;
      }
      var ok := q.PutNowait(item);
      assert streamBytes[id := streamBytes[id] + 0] == streamBytes;
      return if ok then Accepted else Dropped;
    }

    /** `_drain_stream_bytes`: the lower clamp on the total never acts. */
    method DrainStreamBytes(id: string, count: nat)
      requires Valid()
      modifies this`streamBytes, this`totalStreamBytes
      ensures Valid()
      ensures id in streams ==>
                var n := Drained(old(streamBytes)[id], count);
                streamBytes == old(streamBytes)[id := old(streamBytes)[id] - n]
                && totalStreamBytes == old(totalStreamBytes) - n
      ensures id !in streams ==> streamBytes == old(streamBytes) && totalStreamBytes == old(totalStreamBytes)
    {
      hide Sum;
      var drained := Drained(if id in streamBytes then streamBytes[id] else 0, count);
      if id in streamBytes {
        SumUpdate(streamBytes, id, streamBytes[id] - drained);
        SumWithout(streamBytes, id);
        streamBytes := streamBytes[id := streamBytes[id] - drained];
      }
      totalStreamBytes := Max(0, totalStreamBytes - drained);
    }

    /** A PTY's stop event is registered when its worker is about to start. */
    method AddStopEvent(id: string)
      requires Valid()
      modifies this`stopEvents
      ensures Valid() && stopEvents == old(stopEvents) + {id}
    {
      stopEvents := stopEvents + {id};
    }

    /** The request branch's slot for a command: counted before it is submitted, and
        given back when submitting raises. */
    method TakeSlot(submits: bool) returns (slot: Slot)
      requires Valid()
      modifies this`pendingCommands
      ensures Valid()
      ensures slot.Full? <==> old(pendingCommands) == MAX_COMMANDS
      ensures slot.Submitted? <==> submits && old(pendingCommands) < MAX_COMMANDS
      ensures pendingCommands == old(pendingCommands) + if slot.Submitted? then 1 else 0
    {
      if pendingCommands >= MAX_COMMANDS {
        return Full;
      }
      pendingCommands := pendingCommands + 1;
      if !submits {
        pendingCommands := pendingCommands - 1;
        return NotSubmitted;
      }
      slot := Submitted;
    }

    /** A finished command's callback, run on the event loop. */
    method ReleaseSlot()
      requires Valid()
      modifies this`pendingCommands
      ensures Valid() && pendingCommands == Decremented(old(pendingCommands))
    {
      pendingCommands := Decremented(pendingCommands);
    }
  }
}
