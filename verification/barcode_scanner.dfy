/** The product barcode scanner's callbacks (App/frontend/src/components/BarcodeScanner.jsx):
    the 1500 ms debounce, the pause while a scan is handled, and the error filter.

    The component's refs and state are one value; the decoder's results, the
    cooldown timer firing and the error callback are explicit events. */
module BarcodeScanner {
  import opened Wrappers
  import opened Text

  /** Minimum gap between two accepted scans, and the length of the pause after one. */
  const Cooldown: int := 1500

  /** `lastScanRef` (initially 0), the `paused` state, the `hasCamera` state, and
      the due times of the cooldown timers not yet fired, oldest first. */
  datatype Scanner = Scanner(lastScan: int, paused: bool, hasCamera: bool, releases: seq<int>)

  const Initial: Scanner := Scanner(0, false, true, [])

  /** The `paused` option handed to the decoder. */
  predicate DecoderPaused(s: Scanner, disabled: bool) {
    disabled || s.paused || !s.hasCamera
  }

  /** `onDecodeResult(result)`: `text` is `result?.getText?.()`, `None` when the result
      or its text is absent. Returns the new state and the code passed to `onScan`,
      if any. An empty trimmed text, or one decoded less than `Cooldown` after the
      last accepted scan, is dropped; an accepted one records the time, pauses,
      emits the trimmed code once and schedules the release. */
  function OnDecodeResult(s: Scanner, text: Option<string>, now: int): (r: (Scanner, Option<string>))
    ensures r.1.Some? <==> text.Some? && !IsBlank(text.value) && now - s.lastScan >= Cooldown
    ensures r.1.None? ==> r.0 == s
    ensures r.1.Some? ==>
      && r.1.value == Trim(text.value) && |r.1.value| > 0
      && r.0 == Scanner(now, true, s.hasCamera, s.releases + [now + Cooldown])
  {
    if text.None? then (s, None)
    else
      var code := Trim(text.value);
      if code == "" then (s, None)
      else if now - s.lastScan < Cooldown then (s, None)
      else (Scanner(now, true, s.hasCamera, s.releases + [now + Cooldown]), Some(code))
  }

  /** The oldest pending cooldown timer fires and un-pauses the scanner. */
  function ReleaseFires(s: Scanner): (r: Scanner)
    ensures |s.releases| == 0 ==> r == s
    ensures |s.releases| > 0 ==> !r.paused && r.releases == s.releases[1..] && r.lastScan == s.lastScan
  {
    if |s.releases| == 0 then s else s.(paused := false, releases := s.releases[1..])
  }

  /** A decoder error: its `name`, when it has one. */
  datatype DecodeError = DecodeError(name: Option<string>)

  /** `onDecodeError(err)`: true when the error is passed on to `onError`. */
  function OnDecodeError(err: DecodeError): (forwarded: bool)
    ensures !forwarded <==> err.name == Some("NotFoundException")
  {
    err.name != Some("NotFoundException")
  }

  /** An accepted scan pauses the decoder until its release fires. */
  lemma AcceptedScanPausesDecoder(s: Scanner, text: Option<string>, now: int, disabled: bool)
    requires OnDecodeResult(s, text, now).1.Some?
    ensures DecoderPaused(OnDecodeResult(s, text, now).0, disabled)
    ensures now + Cooldown in OnDecodeResult(s, text, now).0.releases
  {
  }

  /** A decoded frame, the cooldown timer firing, or a decoder error. */
  datatype Event = Decoded(text: Option<string>, now: int) | Released | DecodeFailed(err: DecodeError)

  /** Runs the events in order; returns the final state and the accepted scans as
      (time, code) pairs in the order `onScan` saw them. */
  function Run(s: Scanner, events: seq<Event>): (Scanner, seq<(int, string)>)
    decreases |events|
  {
    if |events| == 0 then (s, [])
    else
      match events[0]
      case Decoded(text, now) =>
        var (s1, out) := OnDecodeResult(s, text, now);
        var (s2, rest) := Run(s1, events[1..]);
        (s2, (if out.Some? then [(now, out.value)] else []) + rest)
      case Released =>
        Run(ReleaseFires(s), events[1..])
      case DecodeFailed(_) =>
        Run(s, events[1..])
  }

  /** Every time in `out` is at least `Cooldown` after `from`, and each is at
      least `Cooldown` after the one before it. */
  predicate Spaced(out: seq<(int, string)>, from: int) {
    && (forall i :: 0 <= i < |out| ==> out[i].0 >= from + Cooldown)
    && (forall i :: 0 <= i < |out| - 1 ==> out[i + 1].0 >= out[i].0 + Cooldown)
  }

  /** Accepted scans are spaced by at least `Cooldown`, whatever the order of the
      clock readings, and the first is at least `Cooldown` after the starting `lastScan`. */
  lemma {:induction false} ScansAreSpaced(s: Scanner, events: seq<Event>)
    ensures Spaced(Run(s, events).1, s.lastScan)
    decreases |events|
  {
    if |events| > 0 {
      match events[0]
      case Decoded(text, now) =>
        var (s1, out) := OnDecodeResult(s, text, now);
        ScansAreSpaced(s1, events[1..]);
        var rest := Run(s1, events[1..]).1;
        var head: seq<(int, string)> := if out.Some? then [(now, out.value)] else [];
        var all := head + rest;
        assert Run(s, events).1 == all;
        if out.Some? {
          assert s1.lastScan == now && now >= s.lastScan + Cooldown;
          forall i | 0 <= i < |all| - 1
            ensures all[i + 1].0 >= all[i].0 + Cooldown
          {
            if i > 0 {
              assert all[i] == rest[i - 1] && all[i + 1] == rest[i];
            } else {
              assert all[1] == rest[0];
            }
          }
          forall i | 0 <= i < |all|
            ensures all[i].0 >= s.lastScan + Cooldown
          {
            if i > 0 {
              assert all[i] == rest[i - 1];
            }
          }
        } else {
          assert all == rest && s1 == s;
        }
      case Released =>
        assert Run(s, events) == Run(ReleaseFires(s), events[1..]);
        ScansAreSpaced(ReleaseFires(s), events[1..]);
      case DecodeFailed(_) =>
        ScansAreSpaced(s, events[1..]);
    }
  }

  /** The events other than decoder errors, in order. */
  function WithoutErrors(events: seq<Event>): (r: seq<Event>)
    ensures |r| <= |events|
    decreases |events|
  {
    if |events| == 0 then []
    else (if events[0].DecodeFailed? then [] else [events[0]]) + WithoutErrors(events[1..])
  }

  /** Decoder errors change neither the scanner's state nor the scans it accepts. */
  lemma {:induction false} ErrorsDoNotDisturbScans(s: Scanner, events: seq<Event>)
    ensures Run(s, events) == Run(s, WithoutErrors(events))
    decreases |events|
  {
    if |events| > 0 {
      var rest := WithoutErrors(events[1..]);
      if events[0].DecodeFailed? {
        assert WithoutErrors(events) == [] + rest == rest;
        ErrorsDoNotDisturbScans(s, events[1..]);
      } else {
        var w := [events[0]] + rest;
        assert w[0] == events[0] && w[1..] == rest;
        match events[0]
        case Decoded(text, now) =>
          ErrorsDoNotDisturbScans(OnDecodeResult(s, text, now).0, events[1..]);
        case Released =>
          ErrorsDoNotDisturbScans(ReleaseFires(s), events[1..]);
      }
    }
  }

  /** The errors handed to `onError`, in the order the decoder raised them. */
  function Forwarded(events: seq<Event>): seq<DecodeError>
    decreases |events|
  {
    if |events| == 0 then []
    else
      (if events[0].DecodeFailed? && OnDecodeError(events[0].err) then [events[0].err] else [])
      + Forwarded(events[1..])
  }

  /** `onError` sees no `NotFoundException`, and every other decoder error reaches it. */
  lemma {:induction false} ForwardedErrors(events: seq<Event>)
    ensures forall e :: e in Forwarded(events) ==> e.name != Some("NotFoundException")
    ensures forall i ::
      0 <= i < |events| && events[i].DecodeFailed? && events[i].err.name != Some("NotFoundException")
      ==> events[i].err in Forwarded(events)
    decreases |events|
  {
    if |events| > 0 {
      ForwardedErrors(events[1..]);
      var head: seq<DecodeError> :=
        if events[0].DecodeFailed? && OnDecodeError(events[0].err) then [events[0].err] else [];
      assert Forwarded(events) == head + Forwarded(events[1..]);
      forall i | 0 <= i < |events| && events[i].DecodeFailed? &&
        events[i].err.name != Some("NotFoundException")
        ensures events[i].err in Forwarded(events)
      {
        if i > 0 {
          assert events[i] == events[1..][i - 1];
        }
      }
    }
  }
}
