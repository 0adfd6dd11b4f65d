/**
 * The diff events of DiffEventsHandler.java. The handler is a callback the caller implements;
 * here it is a recorder that appends each callback to a trace.
 */
module DiffEvents {
  import opened Ranges

  datatype EventType = CommonPart | DifferentPart

  datatype EventSide = Left | Right

  /**
   * One callback: `onBeforeStart()`, `handle(content, range, type, side)` or
   * `onDone(similarity)`. The content of a `handle` call is the left content for `Left`
   * and the right one for `Right`, so it is not recorded.
   */
  datatype Event = BeforeStart | Part(kind: EventType, side: EventSide, range: Interval) | Done(similarity: real)

  class EventRecorder {
    var trace: seq<Event>

    constructor ()
      ensures trace == []
    {
      trace := [];
    }

    method OnBeforeStart()
      modifies this
      ensures trace == old(trace) + [BeforeStart]
    {
      trace := trace + [BeforeStart];
    }

    method Handle(range: Interval, kind: EventType, side: EventSide)
      modifies this
      ensures trace == old(trace) + [Part(kind, side, range)]
    {
      trace := trace + [Part(kind, side, range)];
    }

    method OnDone(similarity: real)
      modifies this
      ensures trace == old(trace) + [Done(similarity)]
    {
      trace := trace + [Done(similarity)];
    }
  }
}
