/** The process-wide network lifecycle flag that every background loop of
    the server polls. */
module Lifecycle {

  import opened Wrappers

  datatype NetworkState = Starting | Running | Closing | Closed | Error

  /** The integer each state stands for in `NetworkState` of net/server.py. */
  function Code(s: NetworkState): (k: nat)
    ensures k < 5
    ensures FromCode(k) == Some(s)
  {
    match s
    case Starting => 0
    case Running => 1
    case Closing => 2
    case Closed => 3
    case Error => 4
  }

  /** The state an integer code names, if any. */
  function FromCode(k: int): (s: Option<NetworkState>)
    ensures s.Some? <==> 0 <= k < 5
  {
    if k == 0 then Some(Starting)
    else if k == 1 then Some(Running)
    else if k == 2 then Some(Closing)
    else if k == 3 then Some(Closed)
    else if k == 4 then Some(Error)
    else None
  }

  /** Different states have different codes. */
  lemma CodeInjective(s: NetworkState, t: NetworkState)
    requires Code(s) == Code(t)
    ensures s == t
  {
    assert FromCode(Code(s)) == Some(s);
  }

  /** The state a freshly constructed server starts in: Closed, code 3,
      in which no background loop runs. */
  function InitialState(): (s: NetworkState)
    ensures Code(s) == 3
    ensures !KeepsLooping(s)
  {
    Closed
  }

  /** The state after the listening socket is set up: Running when creating,
      binding and listening all succeeded, Error when any of them raised. */
  function AfterSetup(bindOk: bool): (s: NetworkState)
    ensures s == Running <==> bindOk
    ensures !bindOk ==> s == Error
  {
    if bindOk then Running else Error
  }

  /** The guard of the read loop and of the accept loop. */
  function KeepsLooping(s: NetworkState): (b: bool)
    ensures b <==> Code(s) == 1
  {
    s == Running
  }

  /** The background loops run after setup exactly when the bind succeeded,
      and never before setup. */
  lemma LoopsRunOnlyAfterSuccessfulBind(bindOk: bool)
    ensures KeepsLooping(AfterSetup(bindOk)) <==> bindOk
    ensures !KeepsLooping(InitialState())
  {
  }
}
