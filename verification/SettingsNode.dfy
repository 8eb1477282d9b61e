/** The worker on a node: what it starts with, and which settings it takes over while running. */
module SettingsNode {
  import opened Wrappers
  import opened SettingsServer

  const DEFAULT_MTU: nat := 1300
  const DEFAULT_LISTEN: seq<string> := ["udp://0.0.0.0:24933", "tcp://0.0.0.0:24933"]
  const DEFAULT_SOCKS: string := "127.0.0.1:1080"

  /** The values a worker was started with; they last until it restarts. */
  datatype Runtime = Runtime(
    mode: Mode,
    listen: seq<string>,
    mtu: nat,
    socks: Option<string>,
    forwards: seq<string>)

  function EffectiveListen(c: Content): seq<string> {
    if c.listen.Some? && c.listen.value != [] then c.listen.value else DEFAULT_LISTEN
  }

  /** An empty address disables the proxy. */
  function SocksAddress(text: string): Option<string> { if text == "" then None else Some(text) }

  function StartValues(c: Content): Runtime {
    Runtime(
      if c.mode.Some? then c.mode.value else Proxy,
      EffectiveListen(c),
      if c.mtu.Some? then c.mtu.value else DEFAULT_MTU,
      if c.socks.Some? then SocksAddress(c.socks.value) else Some(DEFAULT_SOCKS),
      if c.forwards.Some? then c.forwards.value else [])
  }

  /** The restart-class fields that `c` manages are the ones the worker runs with. */
  predicate RunsWith(rt: Runtime, c: Content) {
    && (c.mode.Some? ==> c.mode.value == rt.mode)
    && (c.listen.Some? ==> EffectiveListen(c) == rt.listen)
    && (c.mtu.Some? ==> c.mtu.value == rt.mtu)
    && (c.socks.Some? ==> SocksAddress(c.socks.value) == rt.socks)
    && (c.forwards.Some? ==> c.forwards.value == rt.forwards)
  }

  datatype Worker = Worker(applied: nat, runtime: Runtime, restartPending: bool, stopping: bool)

  function Started(revision: nat, c: Content): Worker {
    Worker(revision, StartValues(c), false, false)
  }

  /** What a running worker makes of a settings reply. */
  function Applied(w: Worker, revision: nat, c: Content): Worker {
    if w.applied >= revision then w
    else if RunsWith(w.runtime, c) && c.listen != Some([]) then w.(applied := revision)
    else w.(restartPending := true, stopping := true)
  }

  class Engine {
    var appliedRevision: nat
    var restartPending: bool
    var stopping: bool
    var runtimeMode: Mode
    var runtimeListen: seq<string>
    var runtimeMtu: nat
    var runtimeSocks: Option<string>
    var runtimeForwards: seq<string>

    function View(): Worker
      reads this
    {
      Worker(appliedRevision, Runtime(runtimeMode, runtimeListen, runtimeMtu, runtimeSocks, runtimeForwards),
             restartPending, stopping)
    }

    predicate Valid()
      reads this
    {
      runtimeListen != []
    }

    constructor (revision: nat, settings: Content)
      ensures Valid() && View() == Started(revision, settings)
    {
      runtimeMode := if settings.mode.Some? then settings.mode.value else Proxy;
      appliedRevision, restartPending, stopping := revision, false, false;
      runtimeListen := EffectiveListen(settings);
      runtimeSocks :=
        match settings.socks
        case Some(text) => if text == "" then None else Some(text)
        case None => Some(DEFAULT_SOCKS);
      runtimeForwards := if settings.forwards.Some? then settings.forwards.value else [];
      runtimeMtu := if settings.mtu.Some? then settings.mtu.value else DEFAULT_MTU;
    }

    method ApplyRuntimeSettings(settings: Content) returns (restartNeeded: bool)
      requires Valid()
      modifies this`restartPending
      ensures restartNeeded <==> !RunsWith(View().runtime, settings) || settings.listen == Some([])
      ensures restartNeeded <==>
                || (settings.mode.Some? && settings.mode.value != runtimeMode)
                || (settings.listen.Some? && settings.listen.value != runtimeListen)
                || (settings.mtu.Some? && settings.mtu.value != runtimeMtu)
                || (settings.socks.Some? && (if settings.socks.value == "" then None else settings.socks)
                    != runtimeSocks)
                || (settings.forwards.Some? && settings.forwards.value != runtimeForwards)
      ensures restartPending == (old(restartPending) || restartNeeded)
    {
      restartNeeded := false;
      var pending := restartPending;
      if settings.mtu.Some? && settings.mtu.value != runtimeMtu {
        pending, restartNeeded := true, true;
      }
      if settings.socks.Some? {
        var desired := if settings.socks.value == "" then None else Some(settings.socks.value);
        if runtimeSocks != desired { pending, restartNeeded := true, true; }
      }
      if settings.forwards.Some? && runtimeForwards != settings.forwards.value {
        pending, restartNeeded := true, true;
      }
      if settings.mode.Some? && runtimeMode != settings.mode.value {
        pending, restartNeeded := true, true;
      }
      if settings.listen.Some? && runtimeListen != settings.listen.value {
        pending, restartNeeded := true, true;
      }
      restartPending := pending;
    }

    method ApplySettings(revision: nat, settings: Content)
      requires Valid()
      modifies this
      ensures Valid() && View() == Applied(old(View()), revision, settings)
    {
      if appliedRevision >= revision { return; }
      var restartNeeded := ApplyRuntimeSettings(settings);
      if restartNeeded {
        stopping := true;
        return;
      }
      appliedRevision := revision;
    }
  }

  /** What a worker starts with, field by field. */
  lemma StartsWithManaged(c: Content)
    ensures var rt := StartValues(c);
            && (c.mode.Some? ==> rt.mode == c.mode.value) && (c.mode.None? ==> rt.mode == Proxy)
            && (c.mtu.Some? ==> rt.mtu == c.mtu.value) && (c.mtu.None? ==> rt.mtu == 1300)
            && (c.listen.Some? && c.listen.value != [] ==> rt.listen == c.listen.value)
            && (c.listen.None? || c.listen == Some([]) ==> rt.listen == ["udp://0.0.0.0:24933", "tcp://0.0.0.0:24933"])
            && (c.socks.Some? ==> (rt.socks.None? <==> c.socks.value == "") && (rt.socks.Some? ==> rt.socks == c.socks))
            && (c.socks.None? ==> rt.socks == Some("127.0.0.1:1080"))
            && rt.forwards == if c.forwards.Some? then c.forwards.value else []
  {
  }

  /** A reply is ignored, taken over or a reason to stop by its revision and the five restart-class fields alone. */
  lemma AppliedByFields(w: Worker, revision: nat, c: Content)
    requires w.runtime.listen != []
    ensures var w' := Applied(w, revision, c);
            var rt := w.runtime;
            var same := && (c.mode.None? || c.mode.value == rt.mode) && (c.mtu.None? || c.mtu.value == rt.mtu)
                        && (c.listen.None? || c.listen.value == rt.listen)
                        && (c.forwards.None? || c.forwards.value == rt.forwards)
                        && (c.socks.None? || (c.socks.value == "" && rt.socks.None?)
                            || (c.socks.value != "" && c.socks == rt.socks));
            && w'.runtime == w.runtime
            && (revision <= w.applied ==> w' == w)
            && (revision > w.applied && same ==> w' == w.(applied := revision))
            && (revision > w.applied && !same ==> w' == w.(restartPending := true, stopping := true))
  {
  }

  lemma StartRunsWith(c: Content)
    ensures RunsWith(StartValues(c), c) && StartValues(c).listen != []
  {
  }
}
