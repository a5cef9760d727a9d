/**
 * Callbacks from the native SIP library: deciding on an incoming call, the
 * bookkeeping of the phone's current, ringing and waiting calls when a call
 * is confirmed or disconnected, and matching DTMF digits against the
 * configured codes. Native operations (answer, hang up, dial DTMF) are
 * recorded as effects; each callback runs as one atomic step.
 */
module Callbacks {
  import opened Wrappers
  import opened Pjsua2

  /** A call's identity (the source compares call objects by identity). */
  type CallId = int

  /** SIP status codes of section 21 of RFC 3261. */
  const SC_OK: int := 200
  const SC_FORBIDDEN: int := 403
  const SC_BUSY_HERE: int := 486

  /** A native operation on a call, in the order performed. */
  datatype Effect =
    | Answer(call: CallId, status: int)
    | Hangup(call: CallId)
    | DialDtmf(call: CallId, digits: string)

  /** The invite-session states a call can report. */
  datatype InvState = Null | Calling | Incoming | Early | Connecting | Confirmed | Disconnected

  /** The native media kinds of a call. */
  datatype MediaType = Audio | Video | OtherMedia

  // ---------------------------------------------------------------------
  // Incoming calls

  datatype IncomingOutcome = Rejected | Busy | Accepted

  /** The three-way decision `onIncomingCall` makes. */
  function IncomingDecision(isAdmin: bool, current: Option<CallId>, activeCalls: set<CallId>): (d: IncomingOutcome)
    ensures d == Rejected <==> !isAdmin
    ensures d == Busy <==> isAdmin && current.Some? && current.value in activeCalls
    ensures d == Accepted <==> isAdmin && (current.None? || current.value !in activeCalls)
  {
    if !isAdmin then Rejected
    else if current.Some? && current.value in activeCalls then Busy
    else Accepted
  }

  function Status(d: IncomingOutcome): int
  {
    match d
    case Rejected => SC_FORBIDDEN
    case Busy => SC_BUSY_HERE
    case Accepted => SC_OK
  }

  function OutcomeEvent(d: IncomingOutcome): string
  {
    match d
    case Rejected => "OnCallReject"
    case Busy => "OnCallBusy"
    case Accepted => "OnCallIncoming"
  }

  /** Each outcome answers with its own status and fires its own event. */
  lemma OutcomesDistinct(d1: IncomingOutcome, d2: IncomingOutcome)
    ensures Status(d1) == Status(d2) <==> d1 == d2
    ensures OutcomeEvent(d1) == OutcomeEvent(d2) <==> d1 == d2
  {
  }

  /** The phone's call bookkeeping, plus the native state it consults. */
  class Sipphone {
    /** The URIs `is_admin` accepts. */
    const admins: set<string>
    var currentCall: Option<CallId>
    var ringing: seq<CallId>
    var waiting: seq<CallId>
    /** The calls whose native `isActive()` holds. */
    var activeCalls: set<CallId>
    /** Native operations performed so far. */
    var effects: seq<Effect>

    constructor (admins: set<string>)
      ensures this.admins == admins
      ensures currentCall == None && ringing == [] && waiting == []
      ensures activeCalls == {} && effects == []
    {
      this.admins := admins;
      currentCall, ringing, waiting := None, [], [];
      activeCalls, effects := {}, [];
    }
  }

  /**
   * `AccountCallback.onIncomingCall`: fire BeforeCallIncoming, decide, answer
   * the call exactly once with the decision's status, and fire exactly one
   * outcome event; only an accepted call becomes the current call.
   */
  method OnIncomingCall(sp: Sipphone, eh: EventHandler, callId: CallId, remoteUri: string, possibleDtmf: seq<string>)
    returns (call: CallCallback)
    modifies sp`currentCall, sp`effects, eh
    ensures fresh(call)
    ensures call.id == callId && call.remoteUri == remoteUri && call.possibleDtmf == possibleDtmf
    ensures call.dtmf == "" && !call.fireDisconnect
    ensures var d := IncomingDecision(remoteUri in sp.admins, old(sp.currentCall), sp.activeCalls);
      && sp.effects == old(sp.effects) + [Answer(callId, Status(d))]
      && eh.fired == old(eh.fired) + DualFire("BeforeCallIncoming", false, Some(remoteUri))
                                   + DualFire(OutcomeEvent(d), false, Some(remoteUri))
      && sp.currentCall == if d == Accepted then Some(callId) else old(sp.currentCall)
  {
    call := new CallCallback(callId, remoteUri, possibleDtmf);
    var status: int;
    var event: string;
    FireDualEvent(eh, "BeforeCallIncoming", false, Some(remoteUri));
    if remoteUri !in sp.admins {
      status, event := SC_FORBIDDEN, "OnCallReject";
    } else if sp.currentCall.Some? && sp.currentCall.value in sp.activeCalls {
      status, event := SC_BUSY_HERE, "OnCallBusy";
    } else {
      status, event := SC_OK, "OnCallIncoming";
      sp.currentCall := Some(callId);
    }
    // the `finally` block: runs on the early return of the rejecting branch too
    sp.effects := sp.effects + [Answer(callId, status)];
    FireDualEvent(eh, event, false, Some(remoteUri));
  }

  // ---------------------------------------------------------------------
  // Call state changes

  /** One hang-up for every ringing entry other than `self`, in list order. */
  function HangupOthers(ringing: seq<CallId>, self: CallId): seq<Effect>
  {
    if ringing == [] then []
    else (if ringing[0] != self then [Hangup(ringing[0])] else []) + HangupOthers(ringing[1..], self)
  }

  /**
   * `HangupOthers` hangs up every ringing call other than `self`, and
   * nothing else.
   */
  lemma {:induction false} HangupOthersSpec(ringing: seq<CallId>, self: CallId)
    ensures forall e :: e in HangupOthers(ringing, self) ==> e.Hangup? && e.call != self && e.call in ringing
    ensures forall c :: c in ringing && c != self ==> Hangup(c) in HangupOthers(ringing, self)
  {
    if ringing != [] {
      HangupOthersSpec(ringing[1..], self);
      assert ringing == [ringing[0]] + ringing[1..];
    }
  }

  /**
   * The hang-ups on CONFIRMED as the source writes them: the previous
   * current call, whatever it is, then every other ringing call.
   */
  function ConfirmHangupsAsWritten(current: Option<CallId>, self: CallId, ringing: seq<CallId>): seq<Effect>
  {
    (if current.Some? then [Hangup(current.value)] else []) + HangupOthers(ringing, self)
  }

  /**
   * As written, a call that is already the current call hangs itself up
   * when it is confirmed.
   */
  lemma ConfirmHangsUpSelfAsWritten(self: CallId, ringing: seq<CallId>)
    ensures Hangup(self) in ConfirmHangupsAsWritten(Some(self), self, ringing)
  {
    assert ConfirmHangupsAsWritten(Some(self), self, ringing)[0] == Hangup(self);
  }

  /**
   * The hang-ups on CONFIRMED as intended: a previous current call other
   * than this one, then every other ringing call; never this call.
   */
  function ConfirmHangups(current: Option<CallId>, self: CallId, ringing: seq<CallId>): seq<Effect>
  {
    (if current.Some? && current.value != self then [Hangup(current.value)] else [])
      + HangupOthers(ringing, self)
  }

  /**
   * On CONFIRMED the intended bookkeeping never hangs up the confirmed
   * call, hangs up only the previous current call and ringing calls, and
   * hangs up every one of those other than the confirmed call.
   */
  lemma ConfirmHangupsSpec(current: Option<CallId>, self: CallId, ringing: seq<CallId>)
    ensures var r := ConfirmHangups(current, self, ringing);
      && Hangup(self) !in r
      && (forall e :: e in r ==> e.Hangup? && (Some(e.call) == current || e.call in ringing))
      && (forall c :: (c in ringing || Some(c) == current) && c != self ==> Hangup(c) in r)
  {
    HangupOthersSpec(ringing, self);
  }

  /**
   * A new incoming call, neither current nor ringing yet, becomes the
   * current call exactly when it is accepted (as `OnIncomingCall`
   * ensures). When it is then confirmed, the source as
   * written hangs up that same call exactly when it was accepted, while the
   * intended bookkeeping never does.
   */
  lemma AcceptedThenConfirmed(isAdmin: bool, current: Option<CallId>, activeCalls: set<CallId>,
                              self: CallId, ringing: seq<CallId>)
    requires current != Some(self) && self !in ringing
    ensures var d := IncomingDecision(isAdmin, current, activeCalls);
      var cur := if d == Accepted then Some(self) else current;
      && (Hangup(self) in ConfirmHangupsAsWritten(cur, self, ringing) <==> d == Accepted)
      && Hangup(self) !in ConfirmHangups(cur, self, ringing)
  {
    var d := IncomingDecision(isAdmin, current, activeCalls);
    var cur := if d == Accepted then Some(self) else current;
    HangupOthersSpec(ringing, self);
    if d == Accepted {
      ConfirmHangsUpSelfAsWritten(self, ringing);
    }
    ConfirmHangupsSpec(cur, self, ringing);
  }

  /** The first occurrence of `x` in `s`. */
  function FirstIndex(s: seq<CallId>, x: CallId): (i: nat)
    requires x in s
    ensures i < |s| && s[i] == x && x !in s[..i]
  {
    if s[0] == x then 0 else 1 + FirstIndex(s[1..], x)
  }

  /** Python's `list.remove` when the element is present; unchanged otherwise. */
  function RemoveFirst(s: seq<CallId>, x: CallId): seq<CallId>
  {
    if s == [] then []
    else if s[0] == x then s[1..]
    else [s[0]] + RemoveFirst(s[1..], x)
  }

  /** `RemoveFirst` changes nothing when `x` is absent. */
  lemma {:induction false} RemoveFirstAbsent(s: seq<CallId>, x: CallId)
    requires x !in s
    ensures RemoveFirst(s, x) == s
  {
    if s != [] {
      assert x !in s[1..];
      RemoveFirstAbsent(s[1..], x);
      assert s == [s[0]] + s[1..];
    }
  }

  /**
   * `RemoveFirst` drops the first occurrence of `x` and keeps everything
   * else, in order.
   */
  lemma {:induction false} RemoveFirstPresent(s: seq<CallId>, x: CallId)
    requires x in s
    ensures RemoveFirst(s, x) == s[..FirstIndex(s, x)] + s[FirstIndex(s, x) + 1..]
  {
    if s[0] != x {
      var t := s[1..];
      assert x in t;
      RemoveFirstPresent(t, x);
      var k := FirstIndex(t, x);
      assert FirstIndex(s, x) == 1 + k;
      assert s[..1 + k] == [s[0]] + t[..k];
      assert s[2 + k..] == t[k + 1..];
    }
  }

  /** So, exactly one occurrence of a present `x` leaves the list. */
  lemma {:induction false} RemoveFirstMultiset(s: seq<CallId>, x: CallId)
    ensures multiset(RemoveFirst(s, x)) == multiset(s) - multiset{x}
  {
    if s != [] {
      assert s == [s[0]] + s[1..];
      if s[0] != x {
        RemoveFirstMultiset(s[1..], x);
        assert RemoveFirst(s, x) == [s[0]] + RemoveFirst(s[1..], x);
      }
    }
  }

  /** The event, if any, fired when a call disconnects. */
  function DisconnectEvents(wasConfirmed: bool, ringingAfter: seq<CallId>, remoteUri: string): seq<FiredEvent>
  {
    if wasConfirmed then DualFire("OnCallDisconnect", false, Some(remoteUri))
    else if |ringingAfter| == 0 then DualFire("OnCallUnanswered", false, None)
    else []
  }

  /**
   * OnCallDisconnect fires exactly for confirmed calls; OnCallUnanswered
   * exactly for unconfirmed ones once nothing rings; at most one fires.
   */
  lemma DisconnectFiresAtMostOne(wasConfirmed: bool, ringingAfter: seq<CallId>, remoteUri: string)
    ensures var evs := DisconnectEvents(wasConfirmed, ringingAfter, remoteUri);
      && (exists e :: e in evs && e.name == "OnCallDisconnect") == wasConfirmed
      && (exists e :: e in evs && e.name == "OnCallUnanswered") == (!wasConfirmed && ringingAfter == [])
      && |set e | e in evs && !e.sync| <= 1
  {
    var evs := DisconnectEvents(wasConfirmed, ringingAfter, remoteUri);
    if evs != [] {
      DualFireObserved(evs[0].name, false, if wasConfirmed then Some(remoteUri) else None);
    }
  }

  // ---------------------------------------------------------------------
  // DTMF

  /** Some configured code properly extends `b`. */
  predicate Extended(b: string, codes: seq<string>)
  {
    exists c :: c in codes && b < c
  }

  /** What one digit does to the DTMF buffer. */
  datatype DtmfOutcome = DtmfOutcome(buffer: string, matched: bool, dialed: seq<string>)

  /**
   * One digit: extend the buffer; an exact match fires and dials "11"; no
   * proper extension among the codes resets the buffer, dialling "#" when
   * nothing matched either.
   */
  function DtmfStep(buffer: string, digit: char, codes: seq<string>): (o: DtmfOutcome)
    ensures var b := buffer + [digit];
      && (o.matched <==> b in codes)
      && (o.buffer == "" <==> !Extended(b, codes))
      && (o.buffer != "" ==> o.buffer == b)
      && o.dialed == if o.matched then ["11"] else if o.buffer == "" then ["#"] else []
  {
    var b := buffer + [digit];
    var exact := b in codes;
    var prefix := Extended(b, codes);
    DtmfOutcome(if prefix then b else "", exact,
                (if exact then ["11"] else []) + (if !prefix && !exact then ["#"] else []))
  }

  /** After any digit the buffer is empty or a proper prefix of a configured code. */
  predicate Pending(buffer: string, codes: seq<string>)
  {
    buffer == "" || Extended(buffer, codes)
  }

  /** The buffer after a run of digits, and the codes matched along the way. */
  function DtmfRun(buffer: string, digits: string, codes: seq<string>): (r: (string, seq<string>))
  {
    if digits == [] then (buffer, [])
    else
      var (b, m) := DtmfRun(buffer, digits[..|digits| - 1], codes);
      var o := DtmfStep(b, digits[|digits| - 1], codes);
      (o.buffer, m + if o.matched then [b + [digits[|digits| - 1]]] else [])
  }

  /** Feeding one more digit is one more `DtmfStep`. */
  lemma DtmfRunSnoc(buffer: string, digits: string, d: char, codes: seq<string>)
    ensures var o := DtmfStep(DtmfRun(buffer, digits, codes).0, d, codes);
      DtmfRun(buffer, digits + [d], codes).0 == o.buffer
      && DtmfRun(buffer, digits + [d], codes).1
         == DtmfRun(buffer, digits, codes).1
            + if o.matched then [DtmfRun(buffer, digits, codes).0 + [d]] else []
  {
    assert (digits + [d])[..|digits + [d]| - 1] == digits;
  }

  /** Typing a prefix of a code from a fresh buffer leaves exactly that prefix. */
  lemma {:induction false} DtmfRunPrefix(code: string, k: nat, codes: seq<string>)
    requires code in codes && k < |code|
    ensures DtmfRun("", code[..k], codes).0 == code[..k]
  {
    if k > 0 {
      var pre, d, b := code[..k - 1], code[k - 1], code[..k];
      assert pre + [d] == b;
      assert Extended(b, codes) by { assert b < code; }
      DtmfRunPrefix(code, k - 1, codes);
      DtmfRunSnoc("", pre, d, codes);
    }
  }

  /** Typing a configured code, digit by digit, from a fresh buffer fires that code last. */
  lemma TypedCodeFires(code: string, codes: seq<string>)
    requires code in codes && code != ""
    ensures var m := DtmfRun("", code, codes).1; |m| > 0 && m[|m| - 1] == code
  {
    var pre, d := code[..|code| - 1], code[|code| - 1];
    assert pre + [d] == code;
    DtmfRunPrefix(code, |code| - 1, codes);
    DtmfRunSnoc("", pre, d, codes);
  }

  /**
   * The matcher loop of `onDtmfDigit`: whether some code equals the buffer,
   * and whether some code properly extends it.
   */
  method MatchDtmf(buffer: string, codes: seq<string>) returns (exact: bool, prefix: bool)
    ensures exact <==> buffer in codes
    ensures prefix <==> Extended(buffer, codes)
  {
    exact, prefix := false, false;
    var i := 0;
    while i < |codes|
      invariant 0 <= i <= |codes|
      invariant exact <==> buffer in codes[..i]
      invariant prefix <==> Extended(buffer, codes[..i])
    {
      if codes[i] == buffer {
        exact := true;
      } else if buffer <= codes[i] {
        assert buffer < codes[i];
        prefix := true;
      }
      assert codes[..i + 1] == codes[..i] + [codes[i]];
      ExtendedSnoc(buffer, codes[..i], codes[i]);
      i := i + 1;
    }
    assert codes[..i] == codes;
  }

  lemma ExtendedSnoc(b: string, codes: seq<string>, c: string)
    ensures Extended(b, codes + [c]) <==> Extended(b, codes) || b < c
  {
    if Extended(b, codes) {
      var d :| d in codes && b < d;
      assert d in codes + [c];
    }
    if b < c {
      assert c in codes + [c];
    }
  }

  function DialAll(call: CallId, dialed: seq<string>): (r: seq<Effect>)
    ensures |r| == |dialed|
    ensures forall i :: 0 <= i < |r| ==> r[i] == DialDtmf(call, dialed[i])
  {
    if dialed == [] then [] else [DialDtmf(call, dialed[0])] + DialAll(call, dialed[1..])
  }

  // ---------------------------------------------------------------------
  // Media

  /** `r` is the index of the first medium of `kind`, or None when there is none. */
  predicate IsFirst(media: seq<MediaType>, kind: MediaType, r: Option<nat>)
  {
    match r
    case None => kind !in media
    case Some(i) => i < |media| && media[i] == kind && kind !in media[..i]
  }

  /** `__getAudioVideoMedia`: the first audio and the first video medium of a call. */
  method FirstAudioVideo(media: seq<MediaType>) returns (audio: Option<nat>, video: Option<nat>)
    ensures IsFirst(media, Audio, audio)
    ensures IsFirst(media, Video, video)
  {
    audio, video := None, None;
    var i := 0;
    while i < |media|
      invariant 0 <= i <= |media|
      invariant IsFirst(media[..i], Audio, audio)
      invariant IsFirst(media[..i], Video, video)
    {
      if media[i] == Audio && audio.None? {
        audio := Some(i);
      }
      if media[i] == Video && video.None? {
        video := Some(i);
      }
      assert media[..i + 1] == media[..i] + [media[i]];
      i := i + 1;
    }
    assert media[..i] == media;
  }

  // ---------------------------------------------------------------------
  // The per-call callback object

  class CallCallback {
    const id: CallId
    const remoteUri: string
    /** The configured DTMF codes. */
    const possibleDtmf: seq<string>
    /** The digits received since the last reset. */
    var dtmf: string
    /** Whether this call was ever confirmed. */
    var fireDisconnect: bool

    constructor (id: CallId, remoteUri: string, possibleDtmf: seq<string>)
      ensures this.id == id && this.remoteUri == remoteUri && this.possibleDtmf == possibleDtmf
      ensures dtmf == "" && !fireDisconnect
    {
      this.id, this.remoteUri, this.possibleDtmf := id, remoteUri, possibleDtmf;
      dtmf, fireDisconnect := "", false;
    }

    /**
     * `onCallState`. CONFIRMED makes this the current call, hangs up the
     * previous one and every other ringing call, and empties both lists.
     * DISCONNECTED clears the current call if it is this one, or else
     * removes one occurrence from the ringing list, and fires the event
     * `DisconnectEvents` names. Other states change nothing.
     */
    method OnCallState(sp: Sipphone, eh: EventHandler, state: InvState)
      modifies this`fireDisconnect, sp`currentCall, sp`ringing, sp`waiting, sp`effects, eh
      ensures sp.activeCalls == old(sp.activeCalls) && dtmf == old(dtmf)
      ensures state == Confirmed ==>
        && fireDisconnect
        && sp.currentCall == Some(id)
        && sp.ringing == [] && sp.waiting == []
        && sp.effects == old(sp.effects) + ConfirmHangups(old(sp.currentCall), id, old(sp.ringing))
        && eh.fired == old(eh.fired) + DualFire("OnCallConnect", false, Some(remoteUri))
      ensures state == Disconnected ==>
        && fireDisconnect == old(fireDisconnect)
        && sp.currentCall == (if old(sp.currentCall) == Some(id) then None else old(sp.currentCall))
        && sp.ringing == (if old(sp.currentCall) == Some(id) then old(sp.ringing)
                          else RemoveFirst(old(sp.ringing), id))
        && sp.waiting == old(sp.waiting)
        && sp.effects == old(sp.effects)
        && eh.fired == old(eh.fired) + DisconnectEvents(fireDisconnect, sp.ringing, remoteUri)
      ensures state != Confirmed && state != Disconnected ==>
        && fireDisconnect == old(fireDisconnect)
        && sp.currentCall == old(sp.currentCall)
        && sp.ringing == old(sp.ringing) && sp.waiting == old(sp.waiting)
        && sp.effects == old(sp.effects) && eh.fired == old(eh.fired)
    {
      if state == Confirmed {
        OnConfirmed(sp, eh);
      } else if state == Disconnected {
        OnDisconnected(sp, eh);
      }
    }

    /** The CONFIRMED branch of `onCallState`. */
    method OnConfirmed(sp: Sipphone, eh: EventHandler)
      modifies this`fireDisconnect, sp`currentCall, sp`ringing, sp`waiting, sp`effects, eh
      ensures sp.activeCalls == old(sp.activeCalls)
      ensures fireDisconnect
      ensures sp.currentCall == Some(id)
      ensures sp.ringing == [] && sp.waiting == []
      ensures sp.effects == old(sp.effects) + ConfirmHangups(old(sp.currentCall), id, old(sp.ringing))
      ensures eh.fired == old(eh.fired) + DualFire("OnCallConnect", false, Some(remoteUri))
    {
      fireDisconnect := true;
      HangUpPrevious(sp);
      sp.currentCall := Some(id);
      HangUpRinging(sp, sp.ringing);
      sp.ringing := [];
      sp.waiting := [];
      FireDualEvent(eh, "OnCallConnect", false, Some(remoteUri));
    }

    /**
     * Hanging up the previous current call. As corrected: the source hangs
     * it up even when it is this very call.
     */
    method HangUpPrevious(sp: Sipphone)
      modifies sp`effects, sp`currentCall
      ensures sp.effects == old(sp.effects) + ConfirmHangups(old(sp.currentCall), id, [])
      ensures sp.currentCall == if old(sp.currentCall) == Some(id) then Some(id) else None
    {
      if sp.currentCall.Some? && sp.currentCall.value != id {
        sp.effects := sp.effects + [Hangup(sp.currentCall.value)];
        sp.currentCall := None;
      }
    }

    /** The loop hanging up every ringing call other than this one. */
    method HangUpRinging(sp: Sipphone, ringing: seq<CallId>)
      modifies sp`effects
      ensures sp.effects == old(sp.effects) + HangupOthers(ringing, id)
    {
      var i := 0;
      while i < |ringing|
        invariant 0 <= i <= |ringing|
        invariant sp.effects == old(sp.effects) + HangupOthers(ringing[..i], id)
      {
        if ringing[i] != id {
          sp.effects := sp.effects + [Hangup(ringing[i])];
        }
        HangupOthersAppend(ringing[..i], ringing[i], id);
        assert ringing[..i + 1] == ringing[..i] + [ringing[i]];
        i := i + 1;
      }
      assert ringing[..i] == ringing;
    }

    /** The DISCONNECTED branch of `onCallState`. */
    method OnDisconnected(sp: Sipphone, eh: EventHandler)
      modifies sp`currentCall, sp`ringing, eh
      ensures sp.currentCall == (if old(sp.currentCall) == Some(id) then None else old(sp.currentCall))
      ensures sp.ringing == (if old(sp.currentCall) == Some(id) then old(sp.ringing)
                             else RemoveFirst(old(sp.ringing), id))
      ensures eh.fired == old(eh.fired) + DisconnectEvents(fireDisconnect, sp.ringing, remoteUri)
    {
      if sp.currentCall == Some(id) {
        sp.currentCall := None;
      } else if id in sp.ringing {
        sp.ringing := RemoveFirst(sp.ringing, id);
      } else {
        RemoveFirstAbsent(sp.ringing, id);
      }
      if fireDisconnect {
        FireDualEvent(eh, "OnCallDisconnect", false, Some(remoteUri));
      } else if |sp.ringing| == 0 {
        FireDualEvent(eh, "OnCallUnanswered", false, None);
      }
    }

    /** The buffer invariant every digit re-establishes. */
    predicate DtmfPending()
      reads this
    {
      Pending(dtmf, possibleDtmf)
    }

    /**
     * `onDtmfDigit`: one `DtmfStep`; an exact match fires the async-only
     * event "OnDTMF_" + the digits and dials "11", and no possible match
     * dials "#".
     */
    method OnDtmfDigit(sp: Sipphone, eh: EventHandler, digit: char)
      modifies this`dtmf, sp`effects, eh
      ensures var b := old(dtmf) + [digit];
        var o := DtmfStep(old(dtmf), digit, possibleDtmf);
        && dtmf == o.buffer
        && sp.effects == old(sp.effects) + DialAll(id, o.dialed)
        && eh.fired == old(eh.fired) + if o.matched then DualFire("OnDTMF_" + b, true, Some(remoteUri)) else []
      ensures DtmfPending()
    {
      dtmf := dtmf + [digit];
      var exact, prefix := MatchDtmf(dtmf, possibleDtmf);
      if exact {
        FireDualEvent(eh, "OnDTMF_" + dtmf, true, Some(remoteUri));
        sp.effects := sp.effects + [DialDtmf(id, "11")];
      }
      if !prefix {
        if !exact {
          sp.effects := sp.effects + [DialDtmf(id, "#")];
        }
        dtmf := "";
      }
    }
  }

  lemma HangupOthersAppend(ringing: seq<CallId>, last: CallId, self: CallId)
    ensures HangupOthers(ringing + [last], self)
            == HangupOthers(ringing, self) + (if last != self then [Hangup(last)] else [])
  {
    if ringing != [] {
      assert (ringing + [last])[1..] == ringing[1..] + [last];
      HangupOthersAppend(ringing[1..], last, self);
    }
  }
}
