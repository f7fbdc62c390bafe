/** The load handler `onrequest` of windowname.js as a transition function.
    A session is in state 1 (created), 2 (form submitted) or 3 (frame sent
    back to the local proxy page), and becomes `cleaned` once the answer has
    been handed to the callback. A load signal is what the handler can read
    of the frame at that moment; reads that throw across origins are `None`. */
module Relay {
  import opened Values

  /** `frame.contentWindow.location.href`, `frame.contentWindow.location.host`,
      `frame.readyState` and `frame.contentWindow.name` at one load event. */
  datatype Signal = Signal(href: Option<string>, host: Option<string>, readyState: Option<string>, name: string)

  /** The relay's fixed inputs: `options.localProxy`, `options.defaultName`
      (the session's uuid) and the host of the page that runs the relay. */
  datatype Config = Config(localProxy: Value, defaultName: string, pageHost: string)

  /** What the handler's effects leave behind: the state, whether `clean` has
      run, the values the callback received and the locations the frame was
      sent to. */
  datatype Session = Session(state: int, cleaned: bool, calls: seq<string>, navigations: seq<Value>)

  /** What one signal makes the handler do. */
  datatype Step = Idle | Reroute | Advance | Finish

  /** The answer handed over when the frame still carries the uuid it was
      created with, i.e. the remote page never wrote `window.name`. */
  const ErrorPayload: string := "{\"error\": 1}"

  const Blank: string := "about:blank"

  /** `isLocal()`: the host could be read and equals the page's. */
  predicate IsLocal(host: Option<string>, pageHost: string) {
    host == Some(pageHost)
  }

  function LowerChar(c: char): char {
    if 'A' <= c <= 'Z' then (c as int + 32) as char else c
  }

  /** `toLowerCase` on ASCII letters. */
  function Lower(s: string): (r: string)
    ensures |r| == |s|
    ensures forall i :: 0 <= i < |s| ==> r[i] == LowerChar(s[i])
  {
    seq(|s|, i requires 0 <= i < |s| => LowerChar(s[i]))
  }

  /** `frame.readyState && frame.readyState.toLowerCase() != 'complete'`. */
  predicate NotReady(readyState: Option<string>) {
    readyState.Some? && readyState.value != "" && Lower(readyState.value) != "complete"
  }

  /** The branch of `onrequest` one signal takes. */
  function Decide(s: Session, sig: Signal, cfg: Config): Step {
    if s.cleaned then Idle
    else if sig.href == Some(Blank) then Idle
    else if s.state == 3 then
      if !IsLocal(sig.host, cfg.pageHost) then Reroute
      else if NotReady(sig.readyState) then Idle
      else Finish
    else if s.state == 2 then Advance
    else Idle
  }

  /** `complete()`: the frame's name, or the error answer when it is still the uuid. */
  function Payload(name: string, defaultName: string): string {
    if name == defaultName then ErrorPayload else name
  }

  /** The session after one signal. */
  function Next(s: Session, sig: Signal, cfg: Config): Session {
    match Decide(s, sig, cfg)
    case Idle => s
    case Reroute => s.(navigations := s.navigations + [cfg.localProxy])
    case Advance => s.(state := 3, navigations := s.navigations + [cfg.localProxy])
    case Finish => s.(cleaned := true, calls := s.calls + [Payload(sig.name, cfg.defaultName)])
  }

  /** The session after a sequence of signals. */
  function Run(s: Session, sigs: seq<Signal>, cfg: Config): Session
    decreases |sigs|
  {
    if sigs == [] then s else Run(Next(s, sigs[0], cfg), sigs[1..], cfg)
  }

  /** The session `init` leaves: state 1, nothing called, nowhere navigated.
      Its ensures unfolds the body; InitialInv states the invariant it meets. */
  function Initial(): (s: Session)
    ensures s.state == 1 && !s.cleaned && s.calls == [] && s.navigations == []
  {
    Session(1, false, [], [])
  }

  /** The session `send` leaves: state 2, otherwise unchanged. Its ensures
      unfolds the body; SubmittedInv states the invariant it keeps. */
  function Submitted(s: Session): (r: Session)
    ensures r.state == 2 && r.cleaned == s.cleaned && r.calls == s.calls && r.navigations == s.navigations
  {
    s.(state := 2)
  }

  /** What every reachable session satisfies: the callback has run at most
      once, and exactly when the session is cleaned; a session in state 3 has
      sent the frame to the proxy; a session in state 1 has not. */
  ghost predicate SessionInv(s: Session) {
    && s.state in {1, 2, 3}
    && |s.calls| <= 1
    && (s.cleaned <==> |s.calls| == 1)
    && (s.cleaned ==> s.state == 3)
    && (s.state == 3 ==> |s.navigations| >= 1)
    && (s.state == 1 ==> s.navigations == [])
  }

  // ---------------------------------------------------------------------
  // One signal

  /** A signal seen while the frame still shows `about:blank` changes nothing. */
  lemma BlankIgnored(s: Session, sig: Signal, cfg: Config)
    requires sig.href == Some(Blank)
    ensures Next(s, sig, cfg) == s
  {
  }

  /** Before `send`, no branch of the handler applies. */
  lemma CreatedIgnores(s: Session, sig: Signal, cfg: Config)
    requires s.state == 1
    ensures Next(s, sig, cfg) == s
  {
  }

  /** After `clean` the handlers are detached: nothing changes any more. */
  lemma CleanedIgnores(s: Session, sig: Signal, cfg: Config)
    requires s.cleaned
    ensures Next(s, sig, cfg) == s
  {
  }

  /** In state 2 a signal sends the frame to the proxy and moves to state 3;
      the state-3 check ran first, so the callback does not run on this signal. */
  lemma SubmittedAdvances(s: Session, sig: Signal, cfg: Config)
    requires s.state == 2 && !s.cleaned && sig.href != Some(Blank)
    ensures Next(s, sig, cfg) == s.(state := 3, navigations := s.navigations + [cfg.localProxy])
    ensures Next(s, sig, cfg).calls == s.calls
  {
  }

  /** In state 3, a frame still at a foreign origin (the host differs or cannot
      be read) is sent to the proxy again and the session keeps waiting. */
  lemma ForeignWaits(s: Session, sig: Signal, cfg: Config)
    requires s.state == 3 && !s.cleaned && sig.href != Some(Blank)
    requires sig.host != Some(cfg.pageHost)
    ensures Next(s, sig, cfg) == s.(navigations := s.navigations + [cfg.localProxy])
  {
  }

  /** In state 3 at the local origin, a frame whose `readyState` is set and is
      not `complete` in any letter case is waited for. */
  lemma NotReadyWaits(s: Session, sig: Signal, cfg: Config)
    requires s.state == 3 && !s.cleaned && sig.href != Some(Blank)
    requires sig.host == Some(cfg.pageHost)
    requires sig.readyState.Some? && sig.readyState.value != "" && Lower(sig.readyState.value) != "complete"
    ensures Next(s, sig, cfg) == s
  {
  }

  /** `COMPLETE` reads as complete. */
  lemma UpperCaseComplete()
    ensures !NotReady(Some("COMPLETE"))
    ensures NotReady(Some("loading"))
  {
    assert Lower("COMPLETE") == "complete";
    assert Lower("loading")[0] == 'l';
  }

  /** A ready state lowers to `complete` exactly when it spells `complete`
      in any mix of letter cases. */
  lemma LowerIsComplete(s: string)
    ensures Lower(s) == "complete" <==>
      |s| == 8 && forall i :: 0 <= i < 8 ==> s[i] == "complete"[i] || s[i] == "COMPLETE"[i]
  {
    var w, W := "complete", "COMPLETE";
    if |s| == 8 && forall i :: 0 <= i < 8 ==> s[i] == w[i] || s[i] == W[i] {
      forall i | 0 <= i < 8 ensures Lower(s)[i] == w[i] {
        assert LowerChar(w[i]) == w[i] && LowerChar(W[i]) == w[i] by {
          assert w[i] == "complete"[i] && W[i] == "COMPLETE"[i];
        }
      }
    }
    if Lower(s) == w {
      forall i | 0 <= i < 8 ensures s[i] == w[i] || s[i] == W[i] {
        assert LowerChar(s[i]) == w[i];
        assert 'a' <= w[i] <= 'z' && W[i] as int == w[i] as int - 32;
      }
    }
  }

  /** Lowering twice is lowering once. */
  lemma LowerIdempotent(s: string)
    ensures Lower(Lower(s)) == Lower(s)
  {
    forall i | 0 <= i < |s| ensures LowerChar(LowerChar(s[i])) == LowerChar(s[i]) {
    }
  }

  /** In state 3 at the local origin and ready, the callback receives the
      payload once and the session is cleaned. */
  lemma Completes(s: Session, sig: Signal, cfg: Config)
    requires s.state == 3 && !s.cleaned && sig.href != Some(Blank)
    requires sig.host == Some(cfg.pageHost) && !NotReady(sig.readyState)
    ensures Next(s, sig, cfg) == s.(cleaned := true, calls := s.calls + [Payload(sig.name, cfg.defaultName)])
  {
  }

  /** The callback is called on a signal only when that signal finishes the
      session, and then with one value. */
  lemma CallOnlyOnFinish(s: Session, sig: Signal, cfg: Config)
    ensures Next(s, sig, cfg).calls != s.calls <==> Decide(s, sig, cfg) == Finish
    ensures Decide(s, sig, cfg) == Finish ==> Next(s, sig, cfg).cleaned && |Next(s, sig, cfg).calls| == |s.calls| + 1
  {
    if Decide(s, sig, cfg) == Finish {
      assert |Next(s, sig, cfg).calls| == |s.calls| + 1;
    }
  }

  /** The state never goes back, and only state 2 leads to state 2. */
  lemma NoRegression(s: Session, sig: Signal, cfg: Config)
    ensures Next(s, sig, cfg).state >= s.state
    ensures Next(s, sig, cfg).state == 2 ==> s.state == 2
    ensures s.state == 3 ==> Next(s, sig, cfg).state == 3
  {
  }

  /** The payload is the frame's name unless that is the uuid, and it is never
      the uuid itself. */
  lemma PayloadNeverDefault(name: string, time: nat)
    ensures Payload(name, "transfer_" + NatToString(time)) != "transfer_" + NatToString(time)
    ensures name != "transfer_" + NatToString(time) ==> Payload(name, "transfer_" + NatToString(time)) == name
  {
    var d := "transfer_" + NatToString(time);
    assert d[0] == 't' && ErrorPayload[0] == '{';
  }

  /** The session `init` leaves satisfies the invariant. */
  lemma InitialInv()
    ensures SessionInv(Initial())
  {
  }

  /** `send` on a fresh session keeps the invariant. */
  lemma SubmittedInv(s: Session)
    requires SessionInv(s) && s.state == 1 && !s.cleaned
    ensures SessionInv(Submitted(s)) && Submitted(s).calls == []
  {
  }

  lemma NextPreservesInv(s: Session, sig: Signal, cfg: Config)
    requires SessionInv(s)
    ensures SessionInv(Next(s, sig, cfg))
  {
  }

  // ---------------------------------------------------------------------
  // Sequences of signals

  lemma {:induction false} RunAppend(s: Session, sigs: seq<Signal>, sig: Signal, cfg: Config)
    ensures Run(s, sigs + [sig], cfg) == Next(Run(s, sigs, cfg), sig, cfg)
    decreases |sigs|
  {
    if sigs == [] {
      assert Run(Next(s, sig, cfg), [], cfg) == Next(s, sig, cfg);
    } else {
      assert (sigs + [sig])[0] == sigs[0];
      assert (sigs + [sig])[1..] == sigs[1..] + [sig];
      RunAppend(Next(s, sigs[0], cfg), sigs[1..], sig, cfg);
    }
  }

  /** Every session reached from an invariant one is invariant: in particular
      the callback runs at most once, however many signals arrive. */
  lemma {:induction false} RunPreservesInv(s: Session, sigs: seq<Signal>, cfg: Config)
    requires SessionInv(s)
    ensures SessionInv(Run(s, sigs, cfg))
    ensures |Run(s, sigs, cfg).calls| <= 1
    decreases |sigs|
  {
    if sigs != [] {
      NextPreservesInv(s, sigs[0], cfg);
      RunPreservesInv(Next(s, sigs[0], cfg), sigs[1..], cfg);
    }
  }

  /** Along any run the state only grows, earlier calls are kept, and a
      cleaned session stays as it is. */
  lemma {:induction false} RunMonotone(s: Session, sigs: seq<Signal>, cfg: Config)
    ensures Run(s, sigs, cfg).state >= s.state
    ensures s.calls <= Run(s, sigs, cfg).calls
    ensures s.cleaned ==> Run(s, sigs, cfg) == s
    decreases |sigs|
  {
    if sigs != [] {
      NoRegression(s, sigs[0], cfg);
      RunMonotone(Next(s, sigs[0], cfg), sigs[1..], cfg);
    }
  }

  /** The common course of a request: the remote page loads into the frame
      (state 2 to 3), then the proxy page at the local origin loads and the
      callback receives the name the remote page left. */
  lemma RoundTrip(cfg: Config, remote: Signal, proxy: Signal)
    requires remote.href != Some(Blank)
    requires proxy.href != Some(Blank) && proxy.host == Some(cfg.pageHost) && !NotReady(proxy.readyState)
    ensures Run(Submitted(Initial()), [remote, proxy], cfg) ==
      Session(3, true, [Payload(proxy.name, cfg.defaultName)], [cfg.localProxy])
  {
    var s1 := Next(Submitted(Initial()), remote, cfg);
    assert s1 == Session(3, false, [], [cfg.localProxy]);
    assert [remote, proxy][1..] == [proxy];
    assert Run(s1, [proxy], cfg) == Run(Next(s1, proxy, cfg), [], cfg);
  }
}
