/** Validation and once-only closing of an unbuffered PyMySQL cursor. */
module CursorLifecycle {
  import opened Wrappers

  /** What reading a reference yields: our connection, another object, nothing, or an exception. */
  datatype Link = Ours | Foreign | Nothing | Unreadable

  /** What reading `unbuffered_active` yields. */
  datatype Flag = Known(active: bool) | NotBool | Missing

  type ResultId = nat

  datatype Reference = Result(id: ResultId) | NoResult | UnreadableResult

  datatype Failure =
    | Incompatible
    | ConnectionCloseFailed
    | CursorCloseFailed
    | ClearFlagFailed
    | ClearOwnerFailed
    | DetachFailed

  datatype Event = ConnectionClosed | CursorClosed | Drained

  function FirstOf(a: Option<Failure>, b: Option<Failure>): Option<Failure> {
    if a.Some? then a else b
  }

  /** `failure` is the first of the failures recorded between two moments. */
  ghost predicate Raises(before: seq<Failure>, after: seq<Failure>, failure: Option<Failure>) {
    && before <= after
    && (failure.None? ==> after == before)
    && (failure.Some? ==> |before| < |after| && after[|before|] == failure.value)
  }

  lemma RaisesThen(a: seq<Failure>, b: seq<Failure>, c: seq<Failure>, f: Option<Failure>, g: Option<Failure>)
    requires Raises(a, b, f) && Raises(b, c, g)
    ensures Raises(a, c, FirstOf(f, g))
  {
  }

  /** The driver's cursor, connection and results, with a switch for every call that may raise. */
  class Driver {
    var events: seq<Event>
    var recorded: seq<Failure>
    var cursorConnection: Link
    var cursorResult: Reference
    var connectionResult: Reference
    var flags: map<ResultId, Flag>
    var owners: map<ResultId, Link>
    var connectionCloseFails: bool
    var cursorCloseFails: bool
    var clearFlagFails: bool
    var clearOwnerFails: bool
    var detachFails: bool

    function FlagOf(r: ResultId): Flag
      reads this
    {
      if r in flags then flags[r] else Missing
    }

    function OwnerOf(r: ResultId): Link
      reads this
    {
      if r in owners then owners[r] else Unreadable
    }

    /** Closing a cursor that is attached to a result not known to be finished reads all its rows. */
    predicate Attached()
      reads this
    {
      && cursorConnection != Nothing
      && cursorResult != NoResult
      && (cursorResult.Result? ==> FlagOf(cursorResult.id) != Known(false))
    }

    method Record(failure: Option<Failure>)
      modifies this`recorded
      ensures Raises(old(recorded), recorded, failure)
    {
      if failure.Some? {
        recorded := recorded + [failure.value];
      }
    }

    method CloseConnection() returns (failure: Option<Failure>)
      modifies this`events, this`recorded
      ensures failure == if connectionCloseFails then Some(ConnectionCloseFailed) else None
      ensures events == old(events) + [ConnectionClosed] && Raises(old(recorded), recorded, failure)
    {
      events := events + [ConnectionClosed];
      failure := if connectionCloseFails then Some(ConnectionCloseFailed) else None;
      Record(failure);
    }

    /** As PyMySQL does, closing an attached cursor drains it and detaches it. */
    method CloseCursor() returns (failure: Option<Failure>)
      modifies this`events, this`recorded, this`cursorConnection
      ensures failure == if cursorCloseFails then Some(CursorCloseFailed) else None
      ensures events == old(events) + if old(Attached()) then [CursorClosed, Drained] else [CursorClosed]
      ensures Raises(old(recorded), recorded, failure) && cursorConnection == Nothing
    {
      events := events + if Attached() then [CursorClosed, Drained] else [CursorClosed];
      cursorConnection := Nothing;
      failure := if cursorCloseFails then Some(CursorCloseFailed) else None;
      Record(failure);
    }

    method ClearFlag(r: ResultId) returns (failure: Option<Failure>)
      modifies this`recorded, this`flags
      ensures failure == if clearFlagFails then Some(ClearFlagFailed) else None
      ensures Raises(old(recorded), recorded, failure)
      ensures flags == if failure.None? then old(flags)[r := Known(false)] else old(flags)
    {
      failure := if clearFlagFails then Some(ClearFlagFailed) else None;
      if failure.None? {
        flags := flags[r := Known(false)];
      }
      Record(failure);
    }

    method ClearOwner(r: ResultId) returns (failure: Option<Failure>)
      modifies this`recorded, this`owners
      ensures failure == if clearOwnerFails then Some(ClearOwnerFailed) else None
      ensures Raises(old(recorded), recorded, failure)
      ensures owners == if failure.None? then old(owners)[r := Nothing] else old(owners)
    {
      failure := if clearOwnerFails then Some(ClearOwnerFailed) else None;
      if failure.None? {
        owners := owners[r := Nothing];
      }
      Record(failure);
    }

    method Detach() returns (failure: Option<Failure>)
      modifies this`recorded, this`cursorConnection
      ensures failure == if detachFails then Some(DetachFailed) else None
      ensures Raises(old(recorded), recorded, failure)
      ensures cursorConnection == if failure.None? then Nothing else old(cursorConnection)
    {
      failure := if detachFails then Some(DetachFailed) else None;
      if failure.None? {
        cursorConnection := Nothing;
      }
      Record(failure);
    }
  }

  /** The lifecycle of one cursor. `result` is the captured result object. */
  class SSCursorLifecycle {
    const driver: Driver
    var result: Option<ResultId>
    var validatedCursor: bool
    var validatedResult: bool
    var closed: bool

    /** A validated result was captured. */
    ghost predicate Valid()
      reads this
    {
      validatedResult && !closed ==> result.Some?
    }

    constructor (driver: Driver)
      ensures this.driver == driver && Valid() && !closed && !validatedCursor && !validatedResult
    {
      this.driver := driver;
      result := None;
      validatedCursor := false;
      validatedResult := false;
      closed := false;
    }

    /** Succeeds exactly when cursor and connection refer to each other as expected. */
    method ValidateCursor() returns (failure: Option<Failure>)
      requires Valid()
      modifies this`validatedCursor
      ensures Valid()
      ensures failure.None? <==>
              driver.cursorConnection == Ours && !driver.cursorResult.UnreadableResult?
              && !driver.connectionResult.UnreadableResult?
      ensures validatedCursor == (old(validatedCursor) || failure.None?)
      ensures failure.Some? ==> failure == Some(Incompatible)
    {
      if driver.cursorConnection != Ours || driver.cursorResult.UnreadableResult?
        || driver.connectionResult.UnreadableResult? {
        return Some(Incompatible);
      }
      validatedCursor := true;
      failure := None;
    }

    /** The cursor and the connection share a result with a boolean flag, owned by the connection
        unless it is already finished. */
    predicate ResultShapeOk()
      reads driver
    {
      && driver.cursorResult.Result?
      && driver.cursorResult == driver.connectionResult
      && var r := driver.cursorResult.id;
         driver.FlagOf(r).Known? &&
         (driver.OwnerOf(r) == Ours || (!driver.FlagOf(r).active && driver.OwnerOf(r) == Nothing))
    }

    method ValidateResult() returns (failure: Option<Failure>)
      requires Valid() && !closed
      modifies this`result, this`validatedResult
      ensures Valid()
      ensures failure.None? <==> ResultShapeOk()
      ensures failure.None? ==> validatedResult && driver.cursorResult == Result(result.value)
      ensures failure.Some? ==>
              failure == Some(Incompatible) && validatedResult == old(validatedResult)
              && result == old(result)
    {
      var r, c := driver.cursorResult, driver.connectionResult;
      if !r.Result? || !c.Result? || r != c {
        return Some(Incompatible);
      }
      var active := driver.FlagOf(r.id);
      if !active.Known? {
        return Some(Incompatible);
      }
      var owner := driver.OwnerOf(r.id);
      if owner != Ours && !(!active.active && owner == Nothing) {
        return Some(Incompatible);
      }
      result := Some(r.id);
      validatedResult := true;
      failure := None;
    }

    /** Cursor first: only for a validated result that is finished. */
    method CloseInactive() returns (failure: Option<Failure>)
      modifies driver`events, driver`recorded, driver`cursorConnection
      ensures driver.events == old(driver.events) +
                (if old(driver.Attached()) then [CursorClosed, Drained] else [CursorClosed]) + [ConnectionClosed]
      ensures Raises(old(driver.recorded), driver.recorded, failure) && failure != Some(Incompatible)
      ensures driver.cursorConnection == Nothing
    {
      ghost var r0 := driver.recorded;
      var f := driver.CloseCursor();
      ghost var r1 := driver.recorded;
      var g := driver.CloseConnection();
      RaisesThen(r0, r1, driver.recorded, f, g);
      failure := FirstOf(f, g);
    }

    /** Connection first; the cursor is closed only after it was detached. */
    method AbortActiveOrUnvalidated() returns (failure: Option<Failure>)
      requires validatedResult ==> result.Some?
      modifies driver`events, driver`recorded, driver`cursorConnection, driver`flags, driver`owners
      ensures driver.events == old(driver.events) + [ConnectionClosed] +
                if validatedCursor && !driver.detachFails then [CursorClosed] else []
      ensures Raises(old(driver.recorded), driver.recorded, failure) && failure != Some(Incompatible)
      ensures driver.cursorConnection ==
                if validatedCursor && !driver.detachFails then Nothing else old(driver.cursorConnection)
      ensures !validatedResult ==> driver.flags == old(driver.flags) && driver.owners == old(driver.owners)
      ensures validatedResult && !driver.clearFlagFails ==> driver.FlagOf(result.value) == Known(false)
      ensures validatedResult && !driver.clearOwnerFails ==> driver.OwnerOf(result.value) == Nothing
    {
      ghost var r0 := driver.recorded;
      failure := driver.CloseConnection();
      ghost var r1 := driver.recorded;
      var released := ReleaseResult();
      RaisesThen(r0, r1, driver.recorded, failure, released);
      failure := FirstOf(failure, released);
      ghost var r2 := driver.recorded;
      var detached := ReleaseCursor();
      RaisesThen(r0, r2, driver.recorded, failure, detached);
      failure := FirstOf(failure, detached);
    }

    /** Marks a captured result as finished and ownerless. */
    method ReleaseResult() returns (failure: Option<Failure>)
      requires validatedResult ==> result.Some?
      modifies driver`recorded, driver`flags, driver`owners
      ensures Raises(old(driver.recorded), driver.recorded, failure) && failure != Some(Incompatible)
      ensures !validatedResult ==> driver.flags == old(driver.flags) && driver.owners == old(driver.owners)
      ensures validatedResult && !driver.clearFlagFails ==> driver.FlagOf(result.value) == Known(false)
      ensures validatedResult && !driver.clearOwnerFails ==> driver.OwnerOf(result.value) == Nothing
    {
      failure := None;
      if validatedResult {
        ghost var r0 := driver.recorded;
        failure := driver.ClearFlag(result.value);
        ghost var r1 := driver.recorded;
        var h := driver.ClearOwner(result.value);
        RaisesThen(r0, r1, driver.recorded, failure, h);
        failure := FirstOf(failure, h);
      }
    }

    /** Closes a validated cursor, but only once it is detached from its connection. */
    method ReleaseCursor() returns (failure: Option<Failure>)
      modifies driver`events, driver`recorded, driver`cursorConnection
      ensures driver.events == old(driver.events) +
                if validatedCursor && !driver.detachFails then [CursorClosed] else []
      ensures Raises(old(driver.recorded), driver.recorded, failure) && failure != Some(Incompatible)
      ensures driver.cursorConnection ==
                if validatedCursor && !driver.detachFails then Nothing else old(driver.cursorConnection)
    {
      failure := None;
      if validatedCursor {
        ghost var r0 := driver.recorded;
        failure := driver.Detach();
        if failure.None? {
          ghost var r1 := driver.recorded;
          var c := driver.CloseCursor();
          RaisesThen(r0, r1, driver.recorded, failure, c);
          failure := FirstOf(failure, c);
        }
      }
    }

    /** Whatever call fails, the first close closes the connection exactly once and the cursor at
        most once, cursor first only for a finished result, and raises the first recorded failure;
        any later close does nothing. Unread rows are read if and only if the captured result is
        finished while the cursor has been attached to another one that is not. */
    method Close() returns (failure: Option<Failure>)
      requires Valid()
      modifies this`closed, this`result, driver`events, driver`recorded, driver`cursorConnection, driver`flags,
        driver`owners
      ensures Valid() && closed
      ensures old(closed) ==> failure.None? && unchanged(driver) && result == old(result)
      ensures !old(closed) ==> result.None? && Raises(old(driver.recorded), driver.recorded, failure)
      ensures !old(closed) ==> (CleanClose(old(driver.events), driver.events) <==> !old(Swapped()))
      ensures !old(closed) ==>
                (failure == Some(Incompatible) <==> old(validatedResult && !driver.FlagOf(result.value).Known?))
      ensures !old(closed) && old(validatedResult && !FinishedResult()) && !driver.clearFlagFails ==>
                driver.FlagOf(old(result).value) == Known(false)
      ensures !old(closed) && old(validatedResult && !FinishedResult()) && !driver.clearOwnerFails ==>
                driver.OwnerOf(old(result).value) == Nothing
      ensures !old(closed) && old(!validatedResult || FinishedResult()) ==>
                driver.flags == old(driver.flags) && driver.owners == old(driver.owners)
      ensures !old(closed) && old(SameResult()) ==> CleanClose(old(driver.events), driver.events)
      ensures !old(closed) && old(FinishedResult()) ==>
                driver.events == old(driver.events) +
                  (if !old(Swapped()) then [CursorClosed] else [CursorClosed, Drained]) + [ConnectionClosed]
      ensures !old(closed) && old(validatedCursor && !FinishedResult()) && !driver.detachFails ==>
                driver.events == old(driver.events) + [ConnectionClosed, CursorClosed]
    {
      if closed {
        return None;
      }
      closed := true;
      ghost var r0 := driver.recorded;
      var inactive := false;
      failure := None;
      if validatedResult {
        var active := driver.FlagOf(result.value);
        if !active.Known? {
          failure := Some(Incompatible);
        } else {
          inactive := !active.active;
        }
      }
      driver.Record(failure);
      ghost var r1 := driver.recorded;
      var rest;
      if inactive {
        rest := CloseInactive();
      } else {
        rest := AbortActiveOrUnvalidated();
      }
      RaisesThen(r0, r1, driver.recorded, failure, rest);
      failure := FirstOf(failure, rest);
      result := None;
    }

    /** The captured result is known to be finished. */
    predicate FinishedResult()
      requires Valid() && !closed
      reads this, driver
    {
      validatedResult && driver.FlagOf(result.value) == Known(false)
    }

    /** The captured result is finished, but the cursor is attached to one that is not. */
    predicate Swapped()
      requires Valid() && !closed
      reads this, driver
    {
      FinishedResult() && driver.Attached()
    }

    /** A validated result is still the one the cursor refers to. */
    predicate SameResult()
      requires Valid() && !closed
      reads this, driver
    {
      validatedResult ==> driver.cursorResult == Result(result.value)
    }
  }

  /** Exactly one connection close, at most one cursor close, no unread row read. */
  ghost predicate CleanClose(before: seq<Event>, after: seq<Event>) {
    || after == before + [ConnectionClosed]
    || after == before + [ConnectionClosed, CursorClosed]
    || after == before + [CursorClosed, ConnectionClosed]
  }

  /** A validated cursor whose result 0 is finished, next to an active result 1. */
  method FinishedCursor() returns (lifecycle: SSCursorLifecycle)
    ensures fresh(lifecycle) && fresh(lifecycle.driver)
    ensures lifecycle.Valid() && !lifecycle.closed && lifecycle.validatedResult && lifecycle.result == Some(0)
    ensures lifecycle.driver.events == [] && lifecycle.driver.cursorConnection == Ours
    ensures lifecycle.driver.FlagOf(0) == Known(false) && lifecycle.driver.FlagOf(1) == Known(true)
  {
    var driver := new Driver;
    driver.events := [];
    driver.cursorConnection, driver.cursorResult, driver.connectionResult := Ours, Result(0), Result(0);
    driver.flags, driver.owners := map[0 := Known(false), 1 := Known(true)], map[0 := Nothing];
    lifecycle := new SSCursorLifecycle(driver);
    var f := lifecycle.ValidateResult();
  }

  /** If the driver then attaches the cursor to the active result, closing reads its rows. */
  method SwappedResultIsDrained() returns (events: seq<Event>)
    ensures events == [CursorClosed, Drained, ConnectionClosed]
  {
    hide Raises, CleanClose;
    var lifecycle := FinishedCursor();
    lifecycle.driver.cursorResult := Result(1);
    var f := lifecycle.Close();
    events := lifecycle.driver.events;
  }
}
