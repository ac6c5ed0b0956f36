/** The connect page's logic (App/frontend/src/pages/Connect.jsx): turning a
    scanned or typed trolley id into a backend session and a stored session record.

    The backend call is an input: what `api.startSession` resolves to, or the
    message it rejects with. */
module ConnectPage {
  import opened Wrappers
  import opened Text
  import SessionStore

  /** Error shown for a missing or blank trolley id. */
  const InvalidIdMessage: string := "Invalid trolley ID. Please try again."

  /** Message of the error thrown when the response carries no `session_id`. */
  const NoSessionIdMessage: string := "No session_id in response"

  /** Prefix of the error shown when the backend call fails. */
  const FailurePrefix: string := "Failed to connect: "

  /** The message every call rejects with while `api.js` defines no `startSession`. */
  const MissingEndpointMessage: string := "api.startSession is not a function"

  /** How `api.startSession(id)` settles: with the response's `session_id`
      (`None` when missing, null or otherwise falsy), or rejected with a message. */
  datatype StartReply = Resolved(sessionId: Option<string>) | Rejected(message: string)

  /** What a call of `handleTrolleyConnect` leaves behind besides the store:
      the id sent to the backend (if any call was made), the error shown, and
      whether the success screen (and the navigation to '/cart') follows. */
  datatype Outcome = Outcome(sentId: Option<string>, error: Option<string>, connected: bool)

  /** The trolley id as the page sends it: `trim().toUpperCase()`. */
  function Normalise(id: string): (r: string)
    ensures |r| == |Trim(id)| <= |id|
    ensures forall i :: 0 <= i < |r| ==> r[i] == UpperChar(Trim(id)[i])
    ensures r == "" <==> IsBlank(id)
    ensures |r| > 0 ==> !IsJsSpace(r[0]) && !IsJsSpace(r[|r| - 1])
  {
    var t := Trim(id);
    if |t| > 0 then
      UpperKeepsSpace(t[0]);
      UpperKeepsSpace(t[|t| - 1]);
      ToUpper(t)
    else ToUpper(t)
  }

  /** `handleTrolleyConnect(trolleyId)`: `None` is a null or undefined id. A blank id
      is refused before any call; a reply with a truthy `session_id` stores a fresh
      session record (leaving the cart key alone); anything else shows an error. */
  function HandleTrolleyConnect(st: SessionStore.Storage, input: Option<string>, reply: StartReply, now: int)
    : (r: (SessionStore.Storage, Outcome))
    ensures input.None? || IsBlank(input.value) ==>
      r == (st, Outcome(None, Some(InvalidIdMessage), false))
    ensures input.Some? && !IsBlank(input.value) ==>
      r.1.sentId == Some(Normalise(input.value)) && |Normalise(input.value)| > 0
    ensures r.1.connected <==>
      input.Some? && !IsBlank(input.value) && reply.Resolved? && SessionStore.Truthy(reply.sessionId)
    ensures r.1.connected ==>
      r.0 == st.(session := Some(SessionStore.SessionRecord(reply.sessionId, Some(Normalise(input.value)), Some(now), Some(now))))
      && r.1.error.None?
    ensures !r.1.connected ==> r.0 == st && r.1.error.Some?
    ensures r.0.cart == st.cart
  {
    if input.None? || IsBlank(input.value) then
      (st, Outcome(None, Some(InvalidIdMessage), false))
    else
      var id := Normalise(input.value);
      match reply
      case Resolved(sid) =>
        if SessionStore.Truthy(sid) then
          var rec := SessionStore.SessionRecord(sid, Some(id), Some(now), Some(now));
          (st.(session := Some(rec)), Outcome(Some(id), None, true))
        else
          (st, Outcome(Some(id), Some(FailurePrefix + NoSessionIdMessage), false))
      case Rejected(msg) =>
        (st, Outcome(Some(id), Some(FailurePrefix + msg), false))
  }

  /** A successful connect leaves a record the rest of the client accepts: it is
      a valid session, reading its id back gives the backend's id, and its
      trolley id is the normalised input. */
  lemma ConnectedSessionIsUsable(st: SessionStore.Storage, input: Option<string>, reply: StartReply, now: int)
    requires HandleTrolleyConnect(st, input, reply, now).1.connected
    ensures var st' := HandleTrolleyConnect(st, input, reply, now).0;
      && SessionStore.IsValidSession(st')
      && SessionStore.GetSessionId(st', now) == (st', reply.sessionId)
      && SessionStore.GetTrolleyId(st') == Some(Normalise(input.value))
  {
  }

  /** With the `api.js` of this repository no connect succeeds: the store is left
      as it was and the page shows the `TypeError`'s message. */
  lemma MissingEndpointNeverConnects(st: SessionStore.Storage, input: string, now: int)
    requires !IsBlank(input)
    ensures HandleTrolleyConnect(st, Some(input), Rejected(MissingEndpointMessage), now)
      == (st, Outcome(Some(Normalise(input)), Some(FailurePrefix + MissingEndpointMessage), false))
  {
  }

  /** The manual input field upper-cases what is typed (`toUpperCase` on ASCII letters). */
  function ManualInputChange(typed: string): (r: string)
    ensures |r| == |typed|
    ensures forall i :: 0 <= i < |typed| ==> r[i] == UpperChar(typed[i])
  {
    ToUpper(typed)
  }

  /** `handleManualSubmit`: connects with the raw field only when its trimmed
      value is non-empty; otherwise nothing happens and no call is made. */
  function HandleManualSubmit(st: SessionStore.Storage, field: string, reply: StartReply, now: int)
    : (r: (SessionStore.Storage, Option<Outcome>))
    ensures IsBlank(field) <==> r.1.None?
    ensures IsBlank(field) ==> r.0 == st
    ensures !IsBlank(field) ==>
      (r.0, r.1.value) == HandleTrolleyConnect(st, Some(field), reply, now)
  {
    if Trim(field) != "" then
      var (st', out) := HandleTrolleyConnect(st, Some(field), reply, now);
      (st', Some(out))
    else (st, None)
  }

  /** Typing then submitting sends the normalised form of what was typed: the
      field's upper-casing does not change the id that reaches the backend. */
  lemma TypedIdIsNormalisedOnce(typed: string)
    ensures Normalise(ManualInputChange(typed)) == Normalise(typed)
  {
    TrimUpperCommute(typed);
    ToUpperIdempotent(Trim(typed));
  }

  /** Upper-casing leaves blankness alone. */
  lemma UpperKeepsBlank(s: string)
    ensures IsBlank(ToUpper(s)) <==> IsBlank(s)
  {
    forall i | 0 <= i < |s| ensures IsJsSpace(ToUpper(s)[i]) <==> IsJsSpace(s[i]) {
      UpperKeepsSpace(s[i]);
    }
  }

  /** Submitting the upper-cased field does exactly what submitting the text as
      typed would: the same refusal, the same id sent, the same record stored. */
  lemma ManualFieldIsTransparent(st: SessionStore.Storage, typed: string, reply: StartReply, now: int)
    ensures HandleManualSubmit(st, ManualInputChange(typed), reply, now) == HandleManualSubmit(st, typed, reply, now)
  {
    UpperKeepsBlank(typed);
    TypedIdIsNormalisedOnce(typed);
  }

  /** Trimming and upper-casing commute. */
  lemma TrimUpperCommute(s: string)
    ensures Trim(ToUpper(s)) == ToUpper(Trim(s))
  {
    TrimStartUpper(s);
    TrimEndUpper(TrimStart(s));
  }

  lemma {:induction false} TrimStartUpper(s: string)
    ensures TrimStart(ToUpper(s)) == ToUpper(TrimStart(s))
    decreases |s|
  {
    if |s| > 0 {
      assert ToUpper(s)[1..] == ToUpper(s[1..]);
      UpperKeepsSpace(s[0]);
      TrimStartUpper(s[1..]);
    }
  }

  lemma {:induction false} TrimEndUpper(s: string)
    ensures TrimEnd(ToUpper(s)) == ToUpper(TrimEnd(s))
    decreases |s|
  {
    if |s| > 0 {
      assert ToUpper(s)[..|s| - 1] == ToUpper(s[..|s| - 1]);
      UpperKeepsSpace(s[|s| - 1]);
      TrimEndUpper(s[..|s| - 1]);
    }
  }
}
