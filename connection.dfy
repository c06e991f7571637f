/**
 * GetConnection, the same in every provider: the provider's static
 * connection is created on first use, replaced when it is closing or closed,
 * left alone while it is opening, and opened when it is brand new ("shiny").
 *
 * The connection is an abstract handle: a generation number (which
 * construction made it) and its state. Whether opening succeeds, and the
 * state a failed open leaves behind, are inputs.
 */
module Connection {
  import opened Common

  datatype State = Shiny | Opening | Open | Closing | Closed

  datatype Handle = Handle(generation: nat, state: State)

  /**
   * How the open-and-wait step ends; after a failure, the state the client
   * library leaves the connection in, which the providers do not control.
   */
  datatype OpenOutcome = Opens | SocketFails(after: State) | OtherFails(after: State)

  /** The handle after an acquire, the next generation number, and what the caller gets. */
  datatype Acquired = Acquired(handle: Handle, created: nat, result: Result<Handle>)

  /** A handle the provider may hand out without opening it again. */
  predicate Usable(h: Handle) {
    h.state == Open || h.state == Opening
  }

  /** A handle whose generation number was drawn before `created`. */
  predicate Drawn(h: Option<Handle>, created: nat) {
    h.Some? ==> h.value.generation < created
  }

  /** GetConnection has to open a connection: there is none, or it is brand new, closing or closed. */
  predicate MustOpen(h: Option<Handle>) {
    h.None? || h.value.state in {Shiny, Closing, Closed}
  }

  /**
   * One GetConnection call on the current handle `h`, where `created`
   * numbers the next handle to be constructed.
   */
  function Acquire(h: Option<Handle>, created: nat, outcome: OpenOutcome): (a: Acquired)
    ensures h.None? ==> a.handle.generation == created && a.created == created + 1
    ensures h.Some? && h.value.state == Opening ==> a == Acquired(h.value, created, Ok(h.value))
    ensures h.Some? && h.value.state == Open ==> a == Acquired(h.value, created, Ok(h.value))
    ensures h.Some? && h.value.state == Shiny ==> a.handle.generation == h.value.generation && a.created == created
    ensures h.Some? && h.value.state in {Closing, Closed} ==>
              a.handle.generation == created && a.created == created + 1
    ensures a.result.Ok? ==> a.result.value == a.handle && Usable(a.handle)
    ensures MustOpen(h) && outcome == Opens ==> a.result.Ok? && a.handle.state == Open
    ensures a.result.Err? <==> MustOpen(h) && outcome != Opens
    ensures a.result.Err? ==> a.handle.state == outcome.after
    ensures a.result.Err? ==> a.result.failure == (if outcome.SocketFails? then ConnectionFailed else TransportFailure)
    ensures Drawn(h, created) ==> Drawn(Some(a.handle), a.created)
    ensures created <= a.created
  {
    var (h1, c1) := if h.None? then (Handle(created, Shiny), created + 1) else (h.value, created);
    if h1.state == Opening then Acquired(h1, c1, Ok(h1))
    else
      var (h2, c2) := if h1.state == Closing || h1.state == Closed then (Handle(c1, Shiny), c1 + 1) else (h1, c1);
      if h2.state == Shiny then
        match outcome
        case Opens => Acquired(Handle(h2.generation, Open), c2, Ok(Handle(h2.generation, Open)))
        case SocketFails(after) => Acquired(Handle(h2.generation, after), c2, Err(ConnectionFailed))
        case OtherFails(after) => Acquired(Handle(h2.generation, after), c2, Err(TransportFailure))
      else Acquired(h2, c2, Ok(h2))
  }

  /** Once a connection is handed out, the next call hands out the same one and constructs nothing. */
  lemma AcquireStable(h: Option<Handle>, created: nat, outcome: OpenOutcome, next: OpenOutcome)
    requires Acquire(h, created, outcome).result.Ok?
    ensures var a := Acquire(h, created, outcome);
      Acquire(Some(a.handle), a.created, next) == a
  {
  }

  /** After a failed open that leaves the connection closing or closed, the next call constructs a fresh handle and opens it. */
  lemma AcquireRecovers(h: Option<Handle>, created: nat, outcome: OpenOutcome)
    requires Acquire(h, created, outcome).result.Err?
    requires outcome.after in {Closing, Closed}
    ensures var a := Acquire(h, created, outcome);
      var b := Acquire(Some(a.handle), a.created, Opens);
      b.result == Ok(Handle(a.created, Open)) && b.created == a.created + 1
  {
  }

  /** After a failed open that leaves the connection brand new, the next call opens that same connection again. */
  lemma AcquireRetriesInPlace(h: Option<Handle>, created: nat, outcome: OpenOutcome)
    requires Acquire(h, created, outcome).result.Err?
    requires outcome.after == Shiny
    ensures var a := Acquire(h, created, outcome);
      var b := Acquire(Some(a.handle), a.created, Opens);
      b.result == Ok(Handle(a.handle.generation, Open)) && b.created == a.created
  {
  }

  /**
   * After a failed open that leaves the connection opening or open, the next
   * call hands that connection out as it is, without opening it.
   */
  lemma AcquireHandsOutUnopened(h: Option<Handle>, created: nat, outcome: OpenOutcome, next: OpenOutcome)
    requires Acquire(h, created, outcome).result.Err?
    requires outcome.after in {Opening, Open}
    ensures var a := Acquire(h, created, outcome);
      Acquire(Some(a.handle), a.created, next) == Acquired(a.handle, a.created, Ok(a.handle))
  {
  }

  /**
   * The failure a provider raises: the connection's failure when acquiring
   * failed, else the operation's own result, both through the provider's
   * catch block.
   */
  function Guarded<T, S>(writeToEventLog: bool, connected: Result<Handle>, before: S, o: Outcome<T, S>): (g: Outcome<T, S>)
    ensures connected.Err? ==> g == Outcome(Err(Surface(writeToEventLog, connected.failure)), before)
    ensures connected.Ok? ==> g.state == o.state && g.result == SurfaceResult(writeToEventLog, o.result)
  {
    if connected.Err? then Outcome(Err(Surface(writeToEventLog, connected.failure)), before)
    else Outcome(SurfaceResult(writeToEventLog, o.result), o.state)
  }

  /** A provider's static connection field together with the construction counter. */
  class Manager {
    var handle: Option<Handle>
    var created: nat

    ghost predicate Valid()
      reads this
    {
      Drawn(handle, created)
    }

    constructor ()
      ensures Valid() && handle == None && created == 0
    {
      handle := None;
      created := 0;
    }

    method GetConnection(outcome: OpenOutcome) returns (r: Result<Handle>)
      requires Valid()
      modifies this
      ensures Valid()
      ensures var a := Acquire(old(handle), old(created), outcome);
        handle == Some(a.handle) && created == a.created && r == a.result
    {
      if handle.None? {
        handle := Some(Handle(created, Shiny));
        created := created + 1;
      }
      var h := handle.value;
      if h.state == Opening {
        return Ok(h);
      }
      if h.state == Closing || h.state == Closed {
        h := Handle(created, Shiny);
        handle := Some(h);
        created := created + 1;
      }
      if h.state == Shiny {
        match outcome {
          case Opens =>
            h := Handle(h.generation, Open);
            handle := Some(h);
          case SocketFails(after) =>
            handle := Some(Handle(h.generation, after));
            return Err(ConnectionFailed);
          case OtherFails(after) =>
            handle := Some(Handle(h.generation, after));
            return Err(TransportFailure);
        }
      }
      r := Ok(h);
    }
  }
}
