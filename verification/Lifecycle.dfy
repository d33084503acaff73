/**
 The HTTP server's own lifecycle calls and the sequence that main runs on a signal. What the network
 library answers is a parameter.
 */
module Lifecycle {
  import opened Options
  import opened RateLimiter
  import Shutdown

  datatype Error =
    | NilHTTPServer
    | ServerClosed
    | Other(message: string)

  class Server {
    const hasHTTP: bool
    const rateLimiter: IPRateLimiter?
    // Which of its two ends the HTTP server was asked for.
    var shutDown: bool
    var closed: bool

    constructor (hasHTTP: bool, rateLimiter: IPRateLimiter?)
      ensures this.hasHTTP == hasHTTP && this.rateLimiter == rateLimiter && !shutDown && !closed
    {
      this.hasHTTP := hasHTTP;
      this.rateLimiter := rateLimiter;
      shutDown := false;
      closed := false;
    }

    ghost predicate Valid()
      reads this, if rateLimiter == null then {} else {rateLimiter.stop}
    {
      rateLimiter != null ==> rateLimiter.stop.Valid()
    }

    /** Stops the limiter's loop, then drains the HTTP server, which may fail. */
    method Shutdown(drained: Option<Error>) returns (err: Option<Error>)
      requires Valid()
      modifies this, if rateLimiter == null then {} else {rateLimiter.stop}
      ensures Valid() && closed == old(closed)
      ensures !hasHTTP ==> err == Some(NilHTTPServer) && shutDown == old(shutDown)
      ensures !hasHTTP && rateLimiter != null ==> rateLimiter.stop.closed == old(rateLimiter.stop.closed)
      ensures hasHTTP ==> err == drained && shutDown
      ensures hasHTTP && rateLimiter != null ==> rateLimiter.stop.closed && rateLimiter.stop.closes == 1
    {
      if !hasHTTP {
        return Some(NilHTTPServer);
      }
      if rateLimiter != null {
        IPRateLimiter.Stop(rateLimiter);
      }
      shutDown := true;
      err := drained;
    }

    /** Stops the limiter's loop and closes the HTTP server; that it was closed before is no error. */
    method Close(answer: Option<Error>) returns (err: Option<Error>)
      requires Valid()
      modifies this, if rateLimiter == null then {} else {rateLimiter.stop}
      ensures Valid() && shutDown == old(shutDown)
      ensures !hasHTTP ==> err == Some(NilHTTPServer) && closed == old(closed)
      ensures !hasHTTP && rateLimiter != null ==> rateLimiter.stop.closed == old(rateLimiter.stop.closed)
      ensures hasHTTP ==> closed && err == if answer == Some(ServerClosed) then None else answer
      ensures hasHTTP && rateLimiter != null ==> rateLimiter.stop.closed && rateLimiter.stop.closes == 1
    {
      if !hasHTTP {
        return Some(NilHTTPServer);
      }
      if rateLimiter != null {
        IPRateLimiter.Stop(rateLimiter);
      }
      closed := true;
      if answer.Some? && answer != Some(ServerClosed) {
        return answer;
      }
      err := None;
    }
  }

  /**
   What main does on a signal; a failed graceful shutdown is followed by a forced one. With an HTTP
   server the call ends as a run of the shutdown protocol does.
   */
  method ShutdownWebServer(server: Server, drained: Option<Error>, closed: Option<Error>, wait: Shutdown.Wait)
    returns (forced: bool, exitErr: Option<Shutdown.ExitError>)
    requires server.Valid()
    modifies server, if server.rateLimiter == null then {} else {server.rateLimiter.stop}
    ensures server.Valid()
    ensures forced <==> !server.hasHTTP || drained.Some?
    ensures exitErr.None? <==> wait == Shutdown.Received(None)
    ensures wait.TimedOut? ==> exitErr == Some(Shutdown.WaitTimeout)
    ensures wait.Received? && wait.result.Some? ==> exitErr == Some(Shutdown.ServerFailed(wait.result.value))
    ensures server.hasHTTP ==>
      var end := Shutdown.After(Shutdown.Init(server.rateLimiter != null), Shutdown.RunOf(forced, wait));
      && end.Some?
      && end.value.main == Shutdown.Returned(forced, exitErr)
      && (server.rateLimiter != null ==> end.value.stopCloses == server.rateLimiter.stop.closes)
    ensures server.hasHTTP ==> server.shutDown && (server.closed <==> old(server.closed) || forced)
    ensures server.hasHTTP && server.rateLimiter != null ==>
      server.rateLimiter.stop.closed && server.rateLimiter.stop.closes == 1
  {
    forced := false;
    var err := server.Shutdown(drained);
    if err.Some? {
      forced := true;
      var _ := server.Close(closed);
    }
    match wait {
      case TimedOut => exitErr := Some(Shutdown.WaitTimeout);
      case Received(result) => exitErr := Shutdown.ExitOf(result);
    }
    Shutdown.CallIsReturnedRun(server.rateLimiter != null, forced, wait);
  }
}
