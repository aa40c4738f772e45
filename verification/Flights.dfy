// Persists under way: each is a prepared result and how many of its backend operations are done.
module Flights {
  import opened Text
  import opened Cache
  import opened Preparation
  import opened Publication

  datatype Flight = Flight(prepared: Prepared, done: nat)

  // One cache, and the persists under way over it.
  datatype System = System(cache: Contents, flights: seq<Flight>)

  // Persist `i` performs its next operation, and ends if that fails.
  function Advanced(s: System, i: nat): System {
    if i >= |s.flights| || s.flights[i].done >= |PersistOps(s.flights[i].prepared)| then s
    else AfterOp(s, i, Perform(s.cache, PersistOps(s.flights[i].prepared)[s.flights[i].done]))
  }

  function AfterOp(s: System, i: nat, step: Result<Contents, CacheError>): System
    requires i < |s.flights|
  {
    match step
    case Ok(cache) => System(cache, s.flights[i := s.flights[i].(done := s.flights[i].done + 1)])
    case Err(_) => s.(flights := s.flights[..i] + s.flights[i + 1..])
  }

  // Persist `i` stops for good, wherever it is.
  function Stopped(s: System, i: nat): System {
    if i < |s.flights| then s.(flights := s.flights[..i] + s.flights[i + 1..]) else s
  }
}
