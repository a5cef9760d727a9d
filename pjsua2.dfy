/**
 * The PJSUA2 SIP phone module's event helper: every event it fires goes out
 * asynchronously, and, unless it is marked async-only, also as a synchronous
 * "shadow" event whose name carries the suffix "_S", so that subscribers
 * which touch the native SIP library run on the calling thread.
 */
module Pjsua2 {
  import opened Wrappers

  /** The source every event of this module is attributed to. */
  const EVENT_SOURCE: string := "sipphone.pjsua"

  /** The suffix that turns a base event name into its shadow's name. */
  const SHADOW_SUFFIX: string := "_S"

  /** The key under which the remote party's URI travels in `extra`. */
  const REMOTE_URI_KEY: string := "remote_uri"

  /** One event as the event handler received it. */
  datatype FiredEvent = FiredEvent(name: string, source: string, extra: map<string, string>, sync: bool)

  /** The `extra` mapping: the remote URI when one is given, else empty (never absent). */
  function Extra(remoteUri: Option<string>): (m: map<string, string>)
    ensures REMOTE_URI_KEY in m <==> remoteUri.Some?
    ensures m.Keys <= {REMOTE_URI_KEY}
    ensures remoteUri.Some? ==> m[REMOTE_URI_KEY] == remoteUri.value
  {
    if remoteUri.Some? then map[REMOTE_URI_KEY := remoteUri.value] else map[]
  }

  function ShadowName(name: string): (s: string)
    ensures |s| == |name| + |SHADOW_SUFFIX|
    ensures s[..|name|] == name && s[|name|..] == SHADOW_SUFFIX
  {
    name + SHADOW_SUFFIX
  }

  /** The base name of a shadow event, undoing `ShadowName`. */
  function BaseName(shadow: string): Option<string>
  {
    if |shadow| >= |SHADOW_SUFFIX| && shadow[|shadow| - |SHADOW_SUFFIX|..] == SHADOW_SUFFIX
    then Some(shadow[..|shadow| - |SHADOW_SUFFIX|])
    else None
  }

  /** A shadow name always leads back to its base name, so the two never drift apart. */
  lemma ShadowNameRoundTrip(name: string)
    ensures BaseName(ShadowName(name)) == Some(name)
  {
    var s := ShadowName(name);
    assert s[|s| - |SHADOW_SUFFIX|..] == SHADOW_SUFFIX;
    assert s[..|s| - |SHADOW_SUFFIX|] == name;
  }

  /** What one call of `fire_event` delivers to the event handler, in order. */
  function DualFire(name: string, asyncOnly: bool, remoteUri: Option<string>): (evs: seq<FiredEvent>)
    ensures |evs| == if asyncOnly then 1 else 2
    ensures evs[0].name == name && !evs[0].sync
    ensures !asyncOnly ==> evs[1].name == ShadowName(name) && evs[1].sync
    ensures forall e :: e in evs ==> e.source == EVENT_SOURCE && e.extra == Extra(remoteUri)
  {
    var extra := Extra(remoteUri);
    [FiredEvent(name, EVENT_SOURCE, extra, false)]
      + if asyncOnly then [] else [FiredEvent(ShadowName(name), EVENT_SOURCE, extra, true)]
  }

  /**
   * A subscriber recording every name observes exactly the base name, plus
   * its shadow unless the event is async-only; exactly one delivery is
   * asynchronous.
   */
  lemma DualFireObserved(name: string, asyncOnly: bool, remoteUri: Option<string>)
    ensures (set e | e in DualFire(name, asyncOnly, remoteUri) :: e.name)
            == if asyncOnly then {name} else {name, ShadowName(name)}
    ensures |set e | e in DualFire(name, asyncOnly, remoteUri) && !e.sync| == 1
  {
    var evs := DualFire(name, asyncOnly, remoteUri);
    assert (set e | e in evs && !e.sync) == {evs[0]};
  }

  /** The process-wide event handler, reduced to the log of what it was asked to fire. */
  class EventHandler {
    var fired: seq<FiredEvent>

    constructor ()
      ensures fired == []
    {
      fired := [];
    }

    /** Fire-and-forget delivery. */
    method FireEvent(name: string, source: string, extra: map<string, string>)
      modifies this
      ensures fired == old(fired) + [FiredEvent(name, source, extra, false)]
    {
      fired := fired + [FiredEvent(name, source, extra, false)];
    }

    /** Delivery that returns once every handler has run. */
    method FireEventSync(name: string, source: string, extra: map<string, string>)
      modifies this
      ensures fired == old(fired) + [FiredEvent(name, source, extra, true)]
    {
      fired := fired + [FiredEvent(name, source, extra, true)];
    }
  }

  /** `fire_event(event_name, async_only, remote_uri=...)`. */
  method FireDualEvent(eh: EventHandler, name: string, asyncOnly: bool, remoteUri: Option<string>)
    modifies eh
    ensures eh.fired == old(eh.fired) + DualFire(name, asyncOnly, remoteUri)
  {
    var extra := Extra(remoteUri);
    eh.FireEvent(name, EVENT_SOURCE, extra);
    if !asyncOnly {
      eh.FireEventSync(name + SHADOW_SUFFIX, EVENT_SOURCE, extra);
    }
  }
}
