/** The tables of the first Django backend (App/server/api/models.py) and the
    constraints the database enforces on them.

    Money is integer cents (every amount has two decimal places), times are
    integer milliseconds. Session ids are issued from a counter, so a larger id
    is a later `created_at`; user and payment ids are positions in their tables. */
module ApiModels {
  import opened Wrappers
  import opened CartLines

  datatype PaymentStatus = Pending | Success | Failed

  datatype User = User(name: string, phone: string)

  /** A product row, keyed by its unique barcode. */
  datatype Product = Product(name: string, price: nat, category: string, isActive: bool)

  /** A trolley row, keyed by its unique `trolley_id`. */
  datatype Trolley = Trolley(isAssigned: bool, isActive: bool, lastSeen: Option<int>)

  /** A session row; `user` is a position in the user table. */
  datatype Session = Session(trolley: string, user: Option<nat>, isActive: bool, lastActivity: int)

  datatype Payment = Payment(session: nat, user: nat, total: nat, status: PaymentStatus)

  datatype Db = Db(
    trolleys: map<string, Trolley>,
    sessions: map<nat, Session>,
    items: seq<CartItem>,
    products: map<string, Product>,
    users: seq<User>,
    payments: seq<Payment>,
    nextSession: nat)

  /** A trolley as `Trolley.objects.create(trolley_id=…, last_seen=now)` makes it. */
  function NewTrolley(now: int): (t: Trolley)
    ensures !t.isAssigned && t.isActive && t.lastSeen == Some(now)
  {
    Trolley(false, true, Some(now))
  }

  // ---------------------------------------------------------------------------
  // Constraints the database enforces

  /** `unique_active_session_per_trolley`. */
  predicate OneActivePerTrolley(db: Db) {
    forall a, b ::
      (a in db.sessions && b in db.sessions && db.sessions[a].isActive && db.sessions[b].isActive &&
       db.sessions[a].trolley == db.sessions[b].trolley) ==> a == b
  }

  /** `phone_number` is unique. */
  predicate UniquePhones(users: seq<User>) {
    forall i, j :: 0 <= i < j < |users| ==> users[i].phone != users[j].phone
  }

  /** Foreign keys resolve and issued ids lie below the counter. */
  predicate References(db: Db) {
    && (forall s :: s in db.sessions ==> s < db.nextSession && db.sessions[s].trolley in db.trolleys)
    && (forall s :: s in db.sessions && db.sessions[s].user.Some? ==> db.sessions[s].user.value < |db.users|)
    && (forall i :: 0 <= i < |db.items| ==> db.items[i].session in db.sessions && db.items[i].barcode in db.products)
    && (forall i :: 0 <= i < |db.payments| ==>
          db.payments[i].session in db.sessions && db.payments[i].user < |db.users|)
  }

  /** Everything the schema guarantees. */
  predicate Valid(db: Db) {
    OneActivePerTrolley(db) && OneItemPerProduct(db.items) && UniquePhones(db.users) && References(db)
  }

  // ---------------------------------------------------------------------------
  // What the views are meant to keep true on top of the schema

  /** A trolley with an active session is marked assigned. */
  predicate AssignedWhileActive(db: Db) {
    forall s :: s in db.sessions && db.sessions[s].isActive ==>
      db.sessions[s].trolley in db.trolleys && db.trolleys[db.sessions[s].trolley].isAssigned
  }

  /** The catalogue's prices by barcode. */
  function Prices(db: Db): map<string, nat> {
    PriceColumn(db.products, (p: Product) => p.price)
  }

  /** Every line's quantity is positive and its subtotal is price times quantity. */
  predicate SubtotalsExact(db: Db) {
    Priced(db.items, Prices(db))
  }

  predicate Consistent(db: Db) {
    Valid(db) && AssignedWhileActive(db) && SubtotalsExact(db)
  }
}
