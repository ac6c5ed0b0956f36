/** The checkout page's logic (App/frontend/src/pages/Checkout.jsx): form
    validation and what a submit does to the store. */
module CheckoutPage {
  import opened Wrappers
  import opened Text
  import SessionStore

  const NameMessage: string := "Please enter your full name"
  const EmailMessage: string := "Please enter a valid email address"
  const PhoneMessage: string := "Please enter your phone number"

  /** Where a valid submit navigates. */
  const DonePath: string := "/done"

  /** The three form fields; `None` is a field that is null or undefined. */
  datatype Form = Form(name: Option<string>, email: Option<string>, phone: Option<string>)

  /** `!field?.trim()`: missing or all white space. */
  predicate Empty(field: Option<string>) {
    field.None? || IsBlank(field.value)
  }

  /** `validateForm()`: the message of the first failing check, or `None` when all pass.
      The email check is `!email?.trim() || !email.includes('@')`. */
  function ValidateForm(f: Form): (r: Option<string>)
    ensures r.None? <==> !Empty(f.name) && !Empty(f.email) && Contains(f.email.value, "@") && !Empty(f.phone)
    ensures Empty(f.name) ==> r == Some(NameMessage)
    ensures !Empty(f.name) && (Empty(f.email) || !Contains(f.email.value, "@")) ==> r == Some(EmailMessage)
    ensures !Empty(f.name) && !Empty(f.email) && Contains(f.email.value, "@") && Empty(f.phone) ==>
      r == Some(PhoneMessage)
  {
    if Trim(f.name.GetOr("")) == "" then Some(NameMessage)
    else if Trim(f.email.GetOr("")) == "" || !Contains(f.email.value, "@") then Some(EmailMessage)
    else if Trim(f.phone.GetOr("")) == "" then Some(PhoneMessage)
    else None
  }

  /** `x.includes(c)` for a one-character pattern: `c` occurs somewhere in `x`. */
  lemma ContainsChar(x: string, c: char)
    ensures Contains(x, [c]) <==> exists i :: 0 <= i < |x| && x[i] == c
  {
    if exists i :: 0 <= i < |x| && x[i] == c {
      var i :| 0 <= i < |x| && x[i] == c;
      assert OccursAt(x, [c], i);
    }
    if Contains(x, [c]) {
      var i :| 0 <= i <= |x| - 1 && OccursAt(x, [c], i);
      assert x[i..i + 1][0] == x[i];
    }
  }

  /** White space around a field changes neither its blankness nor whether it holds '@'. */
  lemma PaddedField(w1: string, x: string, w2: string)
    requires IsBlank(w1) && IsBlank(w2)
    ensures IsBlank(w1 + x + w2) <==> IsBlank(x)
    ensures Contains(w1 + x + w2, "@") <==> Contains(x, "@")
  {
    var p := w1 + x + w2;
    assert forall i :: 0 <= i < |x| ==> p[|w1| + i] == x[i];
    assert forall i :: 0 <= i < |w1| ==> p[i] == w1[i];
    assert forall i :: 0 <= i < |w2| ==> p[|w1| + |x| + i] == w2[i];
    ContainsChar(p, '@');
    ContainsChar(x, '@');
    if exists i :: 0 <= i < |p| && p[i] == '@' {
      var i :| 0 <= i < |p| && p[i] == '@';
      assert |w1| <= i < |w1| + |x|;
      assert x[i - |w1|] == '@';
    }
    if !IsBlank(x) {
      var i :| 0 <= i < |x| && !IsJsSpace(x[i]);
      assert !IsJsSpace(p[|w1| + i]);
    }
  }

  /** Typing white space around the fields never changes what the form reports:
      each check trims before it tests, and '@' is not white space. */
  lemma PaddingIsIgnored(name: string, email: string, phone: string, w1: string, w2: string)
    requires IsBlank(w1) && IsBlank(w2)
    ensures ValidateForm(Form(Some(w1 + name + w2), Some(w1 + email + w2), Some(w1 + phone + w2)))
         == ValidateForm(Form(Some(name), Some(email), Some(phone)))
  {
    PaddedField(w1, name, w2);
    PaddedField(w1, email, w2);
    PaddedField(w1, phone, w2);
  }

  /** How the order request settles; the page ignores which. */
  datatype OrderReply = OrderAccepted | OrderRejected

  /** The order request the page sends: the session id read at submit time, the
      lines of the cart captured when the page mounted, and the form. */
  datatype OrderRequest = OrderRequest(sessionId: Option<string>, items: seq<SessionStore.LineItem>, form: Form)

  /** What a submit leaves behind besides the store. */
  datatype Outcome = Outcome(request: Option<OrderRequest>, error: Option<string>, navigateTo: Option<string>)

  /** `handleCheckout`: an invalid form shows the first error, sends nothing and
      leaves the store alone; a valid form reads the session id, sends the order,
      and whatever the reply, clears the cart and navigates to '/done'. A valid
      submit keeps whatever error an earlier submit showed. */
  function HandleCheckout(st: SessionStore.Storage, now: int, mounted: SessionStore.Cart, f: Form,
                          shownError: Option<string>, reply: OrderReply): (r: (SessionStore.Storage, Outcome))
    ensures ValidateForm(f).Some? ==> r == (st, Outcome(None, ValidateForm(f), None))
    ensures ValidateForm(f).None? ==>
      var (st1, sid) := SessionStore.GetSessionId(st, now);
      && r.0 == SessionStore.ClearCart(st1)
      && r.1 == Outcome(Some(OrderRequest(sid, mounted.items, f)), shownError, Some(DonePath))
    ensures ValidateForm(f).None? ==> SessionStore.GetCart(r.0) == SessionStore.EmptyCart
  {
    match ValidateForm(f)
    case Some(msg) => (st, Outcome(None, Some(msg), None))
    case None =>
      var (st1, sid) := SessionStore.GetSessionId(st, now);
      (SessionStore.ClearCart(st1), Outcome(Some(OrderRequest(sid, mounted.items, f)), shownError, Some(DonePath)))
  }

  /** The order's outcome does not matter: an accepted and a rejected order end alike. */
  lemma OrderReplyIgnored(st: SessionStore.Storage, now: int, mounted: SessionStore.Cart, f: Form, shownError: Option<string>)
    ensures HandleCheckout(st, now, mounted, f, shownError, OrderAccepted)
         == HandleCheckout(st, now, mounted, f, shownError, OrderRejected)
  {
  }

  /** Submitting never clears the session record unless it had gone stale. */
  lemma CheckoutKeepsFreshSession(st: SessionStore.Storage, now: int, mounted: SessionStore.Cart, f: Form,
                                  shownError: Option<string>, reply: OrderReply)
    requires st.session.Some? && st.session.value.createdAt.Some?
    requires now - st.session.value.createdAt.value <= SessionStore.SessionTimeout
    ensures HandleCheckout(st, now, mounted, f, shownError, reply).0.session == st.session
  {
  }
}
