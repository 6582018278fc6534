/** The two-level referral commission chain (`backend/app/services/referral_service.py`):
    when an order is paid, the buyer's referrer earns 10% of the order amount and that
    referrer's own referrer earns 5%. */
module Referral {
  import opened Wrappers
  import opened Store
  import Money
  import Seqs

  const Level1Rate: real := 0.10
  const Level2Rate: real := 0.05

  /** A commission before the database assigns its id. */
  datatype Draft = Draft(orderId: int, fromUserId: int, toUserId: int, level: int, amount: real, status: string)

  /** `if user.referredById:` — Python truthiness, so an id of 0 counts as absent. */
  predicate HasReferrer(u: User) {
    u.referredById.Some? && u.referredById.value != 0
  }

  /** `_get_parent`: the user who referred `u`, when there is one and the row exists. */
  function Referrer(db: Db, u: User): (r: Option<User>)
    ensures r.Some? ==> HasReferrer(u) && r.value.id == u.referredById.value
  {
    if HasReferrer(u) then UserById(db, u.referredById.value) else None
  }

  /** The commissions `create_commissions` decides to write, in order. */
  function Plan(db: Db, buyerId: int, orderId: int, amount: real): (ds: seq<Draft>)
    ensures |ds| <= 2
    // Every commission comes from this buyer and this order, is already PAID, and its
    // level is its position in the chain.
    ensures forall k :: 0 <= k < |ds| ==>
      ds[k].orderId == orderId && ds[k].fromUserId == buyerId && ds[k].status == Paid && ds[k].level == k + 1
    // An unknown buyer, or one nobody referred, earns nobody anything.
    ensures (UserById(db, buyerId).None? || !HasReferrer(UserById(db, buyerId).value)) ==> ds == []
    // Level 1 exists exactly when the buyer's referrer exists, and pays it 10%.
    ensures |ds| >= 1 <==> UserById(db, buyerId).Some? && Referrer(db, UserById(db, buyerId).value).Some?
    ensures |ds| >= 1 ==>
      var l1 := Referrer(db, UserById(db, buyerId).value).value;
      ds[0].toUserId == l1.id == UserById(db, buyerId).value.referredById.value &&
      ds[0].amount == Money.PyRound2(amount * Level1Rate)
    // Level 2 exists exactly when, in addition, that referrer's own referrer exists, and pays it 5%.
    ensures |ds| == 2 <==> |ds| >= 1 && Referrer(db, Referrer(db, UserById(db, buyerId).value).value).Some?
    ensures |ds| == 2 ==>
      var l1 := Referrer(db, UserById(db, buyerId).value).value;
      ds[1].toUserId == l1.referredById.value &&
      ds[1].amount == Money.PyRound2(amount * Level2Rate)
  {
    match UserById(db, buyerId)
    case None => []
    case Some(buyer) =>
      match Referrer(db, buyer)
      case None => []
      case Some(l1) =>
        var first := Draft(orderId, buyerId, l1.id, 1, Money.PyRound2(amount * Level1Rate), Paid);
        match Referrer(db, l1)
        case None => [first]
        case Some(l2) => [first, Draft(orderId, buyerId, l2.id, 2, Money.PyRound2(amount * Level2Rate), Paid)]
  }

  /** Sum of the commission amounts, in order. */
  function Total(ds: seq<Draft>): real {
    if ds == [] then 0.0 else Total(ds[..|ds| - 1]) + ds[|ds| - 1].amount
  }

  /** The written rows: each draft gets the next free id, in order. */
  function Insert(existing: seq<Commission>, ds: seq<Draft>): (rows: seq<Commission>)
    ensures |rows| == |ds|
    ensures forall k :: 0 <= k < |ds| ==>
      rows[k] == Commission(Seqs.NextId(existing, (c: Commission) => c.id) + k,
        ds[k].orderId, ds[k].fromUserId, ds[k].toUserId, ds[k].level, ds[k].amount, ds[k].status)
  {
    var next := Seqs.NextId(existing, (c: Commission) => c.id);
    seq(|ds|, k requires 0 <= k < |ds| =>
      Commission(next + k, ds[k].orderId, ds[k].fromUserId, ds[k].toUserId, ds[k].level, ds[k].amount, ds[k].status))
  }

  /** `create_commissions`: the new state and the created rows. Only the commission table changes. */
  function CreateCommissions(db: Db, buyerId: int, orderId: int, amount: real): (r: (Db, seq<Commission>))
    ensures r.0 == db.(commissions := db.commissions + r.1)
    ensures |r.1| == |Plan(db, buyerId, orderId, amount)| <= 2
    // New rows get ids above every existing commission id, and distinct from each other.
    ensures forall k :: 0 <= k < |r.1| ==> forall c :: c in db.commissions ==> c.id < r.1[k].id
    ensures forall i, j :: 0 <= i < j < |r.1| ==> r.1[i].id < r.1[j].id
  {
    var rows := Insert(db.commissions, Plan(db, buyerId, orderId, amount));
    (db.(commissions := db.commissions + rows), rows)
  }

  /** The commissions on an order of `amount >= 0` never exceed 15% of it by more than the
      two roundings to a hundredth (half a hundredth each). */
  lemma CommissionBound(db: Db, buyerId: int, orderId: int, amount: real)
    requires amount >= 0.0
    ensures Total(Plan(db, buyerId, orderId, amount)) <= amount * (Level1Rate + Level2Rate) + 0.01
  {
    var ds := Plan(db, buyerId, orderId, amount);
    if |ds| == 1 {
      assert ds[..0] == [];
    } else if |ds| == 2 {
      assert ds[..1][..0] == [] && ds[..1] == [ds[0]];
      assert Total(ds[..1]) == Total(ds[..1][..0]) + ds[0].amount;
      assert Total(ds) == ds[0].amount + ds[1].amount;
    }
  }

  /** For a whole-toman amount both roundings are exact, so the chain pays at most 15%, and
      exactly 15% when both levels exist. */
  lemma WholeAmountCommissions(db: Db, buyerId: int, orderId: int, n: nat)
    ensures var ds := Plan(db, buyerId, orderId, n as real);
      && Total(ds) <= n as real * (Level1Rate + Level2Rate)
      && (|ds| == 2 ==> Total(ds) == n as real * (Level1Rate + Level2Rate))
      && (|ds| >= 1 ==> ds[0].amount == n as real * Level1Rate)
  {
    var ds := Plan(db, buyerId, orderId, n as real);
    RoundedShares(n);
    assert |ds| >= 1 ==> ds[0].amount == n as real * Level1Rate;
    assert |ds| == 2 ==> ds[1].amount == n as real * Level2Rate;
    DraftsBound(ds, n as real);
  }

  /** One or two drafts paying the two shares of `amount` add up to at most both shares. */
  lemma DraftsBound(ds: seq<Draft>, amount: real)
    requires amount >= 0.0 && |ds| <= 2
    requires |ds| >= 1 ==> ds[0].amount == amount * Level1Rate
    requires |ds| == 2 ==> ds[1].amount == amount * Level2Rate
    ensures Total(ds) <= amount * (Level1Rate + Level2Rate)
    ensures |ds| == 2 ==> Total(ds) == amount * (Level1Rate + Level2Rate)
  {
    TotalUpToTwo(ds);
  }

  /** Both shares of a whole amount are whole cents, so rounding them changes nothing. */
  lemma RoundedShares(n: nat)
    ensures Money.PyRound2(n as real * Level1Rate) == n as real * Level1Rate
    ensures Money.PyRound2(n as real * Level2Rate) == n as real * Level2Rate
  {
    assert n as real * Level1Rate == (10 * n) as real / 100.0;
    assert n as real * Level2Rate == (5 * n) as real / 100.0;
    Money.Round2OfCents(10 * n);
    Money.Round2OfCents(5 * n);
  }

  lemma TotalUpToTwo(ds: seq<Draft>)
    requires |ds| <= 2
    ensures |ds| == 0 ==> Total(ds) == 0.0
    ensures |ds| == 1 ==> Total(ds) == ds[0].amount
    ensures |ds| == 2 ==> Total(ds) == ds[0].amount + ds[1].amount
  {
    if |ds| == 1 {
      assert ds[..0] == [];
    } else if |ds| == 2 {
      assert ds[..1][..0] == [] && ds[..1] == [ds[0]];
      assert Total(ds[..1]) == Total(ds[..1][..0]) + ds[0].amount;
    }
  }
}
