/** The coupon handlers of services/product/controllers/coupon.controller.js:
    the decision chain of validation, the active listing, the code guard of
    create and update, the field merge of update and the `$pull` of delete.
    "Now" is a parameter; dates are instants on an integer clock. */
module Coupons {
  import opened Common
  import opened Text
  import opened Models

  // ------------------------------------------------------------ lookups

  /** The filters the handlers pass to the coupon collection. */
  datatype Key = ActiveCode(code: string) | AnyCode(code: string) | WithId(id: CouponId)

  predicate Matches(c: Coupon, key: Key)
  {
    match key
    case ActiveCode(code) => c.isActive && c.code == code
    case AnyCode(code) => c.code == code
    case WithId(id) => c.id == id
  }

  /** `findOne` / `findById`: the position of the first coupon, in store order
      from `from` on, that the filter matches. */
  function FindFrom(coupons: seq<Coupon>, key: Key, from: nat): (r: Option<nat>)
    requires from <= |coupons|
    ensures r.Some? ==>
      && from <= r.value < |coupons| && Matches(coupons[r.value], key)
      && forall i :: from <= i < r.value ==> !Matches(coupons[i], key)
    ensures r.None? <==> forall i :: from <= i < |coupons| ==> !Matches(coupons[i], key)
    decreases |coupons| - from
  {
    if from == |coupons| then None
    else if Matches(coupons[from], key) then Some(from)
    else FindFrom(coupons, key, from + 1)
  }

  function Find(coupons: seq<Coupon>, key: Key): (r: Option<nat>)
    ensures r.Some? ==>
      && r.value < |coupons| && Matches(coupons[r.value], key)
      && forall i :: 0 <= i < r.value ==> !Matches(coupons[i], key)
    ensures r.None? <==> forall i :: 0 <= i < |coupons| ==> !Matches(coupons[i], key)
  {
    FindFrom(coupons, key, 0)
  }

  /** The coupon side of the store: every coupon passes its schema, codes are
      unique and ids identify one coupon each. */
  predicate CouponsValid(coupons: seq<Coupon>)
  {
    && (forall i :: 0 <= i < |coupons| ==> ValidCoupon(coupons[i]))
    && UniqueCodes(coupons)
    && DistinctCouponIds(coupons)
  }

  /** Appending a valid coupon whose code and id are new keeps the store valid. */
  lemma AppendKeepsValid(coupons: seq<Coupon>, c: Coupon)
    requires CouponsValid(coupons) && ValidCoupon(c)
    requires forall i :: 0 <= i < |coupons| ==> coupons[i].code != c.code && coupons[i].id != c.id
    ensures CouponsValid(coupons + [c])
  {
  }

  /** Replacing a coupon by a valid one with the same id and a code no other
      coupon holds keeps the store valid. */
  lemma ReplaceKeepsValid(coupons: seq<Coupon>, k: nat, m: Coupon)
    requires CouponsValid(coupons) && k < |coupons| && ValidCoupon(m) && m.id == coupons[k].id
    requires forall i :: 0 <= i < |coupons| && i != k ==> coupons[i].code != m.code
    ensures CouponsValid(coupons[k := m])
  {
    var after := coupons[k := m];
    forall i, j | 0 <= i < j < |after| ensures after[i].code != after[j].code && after[i].id != after[j].id {
      if i != k && j != k {
        assert after[i] == coupons[i] && after[j] == coupons[j];
      }
    }
  }

  /** In a valid store the coupon at `k` is the one its own code finds, when active. */
  lemma FindOwnCode(coupons: seq<Coupon>, k: nat)
    requires CouponsValid(coupons) && k < |coupons|
    ensures var c := coupons[k];
      Find(coupons, ActiveCode(NormalizeCode(c.code))) == if c.isActive then Some(k) else None
  {
    NormalCodeIsFixed(coupons[k].code);
  }

  /** In a valid store the coupon at `k` is the one its id finds. */
  lemma FindOwnId(coupons: seq<Coupon>, k: nat)
    requires CouponsValid(coupons) && k < |coupons|
    ensures Find(coupons, WithId(coupons[k].id)) == Some(k)
  {
  }

  // --------------------------------------------------------- validation

  /** The coupon fields the validation answers with. */
  datatype CouponView = CouponView(
    code: string,
    discountType: string,
    discountValue: real,
    minPurchaseAmount: real,
    maxDiscountAmount: Option<real>,
    expirationDate: int)

  function View(c: Coupon): CouponView
  {
    CouponView(c.code, c.discountType, c.discountValue, c.minPurchaseAmount, c.maxDiscountAmount, c.expirationDate)
  }

  /** The status of POST /api/coupons/validate and, on 200, the coupon shown. */
  datatype Validation = Validation(outcome: Outcome, coupon: Option<CouponView>)

  /** `productIds && productIds.length > 0`: an empty array skips the product checks. */
  predicate Requested(productIds: Option<seq<ProductId>>)
  {
    productIds.Some? && |productIds.value| > 0
  }

  /** The distinct products `Product.find({ _id: { $in: ids } })` returns. */
  function FoundIds(products: map<ProductId, Product>, ids: seq<ProductId>): (r: set<ProductId>)
    ensures forall id :: id in r <==> id in ids && id in products
  {
    if |ids| == 0 then {}
    else
      var last := ids[|ids| - 1];
      FoundIds(products, ids[..|ids| - 1]) + (if last in products then {last} else {})
  }

  predicate AllDistinct(ids: seq<ProductId>)
  {
    forall i, j :: 0 <= i < j < |ids| ==> ids[i] != ids[j]
  }

  predicate AllExist(products: map<ProductId, Product>, ids: seq<ProductId>)
  {
    forall i :: 0 <= i < |ids| ==> ids[i] in products
  }

  /** Some product that lists the coupon among its `couponCodes` is one of the
      requested products. */
  predicate Applicable(products: map<ProductId, Product>, couponId: CouponId, ids: seq<ProductId>)
  {
    exists pid :: pid in products && couponId in products[pid].couponCodes && pid in ids
  }

  /** What a coupon must satisfy to be accepted, stated without the count the
      handler compares: not expired, and when products are named, each of them
      exists, none is named twice, and one of them carries the coupon. */
  predicate Accepts(db: Db, c: Coupon, productIds: Option<seq<ProductId>>, now: int)
  {
    && now <= c.expirationDate
    && (Requested(productIds) ==>
         AllExist(db.products, productIds.value) && AllDistinct(productIds.value)
         && Applicable(db.products, c.id, productIds.value))
  }

  /** POST /api/coupons/validate.  The code goes through the setters of the
      `code` path before the lookup. */
  function ValidateCoupon(db: Db, code: string, productIds: Option<seq<ProductId>>, now: int): (r: Validation)
    ensures var found := Find(db.coupons, ActiveCode(NormalizeCode(code)));
      && (r.outcome == NotFound("Coupon not found or inactive") <==> found.None?)
      && (r.outcome == BadRequest("Coupon has expired") <==>
            found.Some? && now > db.coupons[found.value].expirationDate)
      && (r.outcome == BadRequest("Some products not found") <==>
            found.Some? && now <= db.coupons[found.value].expirationDate && Requested(productIds)
            && !(AllExist(db.products, productIds.value) && AllDistinct(productIds.value)))
      && (r.outcome == Ok <==> found.Some? && Accepts(db, db.coupons[found.value], productIds, now))
      && (r.outcome == Ok ==> r.coupon == Some(View(db.coupons[found.value])))
    ensures r.outcome != Ok ==> r.coupon.None?
    ensures r.outcome in {Ok, NotFound("Coupon not found or inactive"), BadRequest("Coupon has expired"),
                          BadRequest("Some products not found"), BadRequest("Coupon not applicable to these products")}
  {
    var found := Find(db.coupons, ActiveCode(NormalizeCode(code)));
    if found.None? then Validation(NotFound("Coupon not found or inactive"), None)
    else
      var c := db.coupons[found.value];
      if now > c.expirationDate then Validation(BadRequest("Coupon has expired"), None)
      else if !Requested(productIds) then Validation(Ok, Some(View(c)))
      else
        var ids := productIds.value;
        FoundCount(db.products, ids);
        if |FoundIds(db.products, ids)| != |ids| then Validation(BadRequest("Some products not found"), None)
        else if !Applicable(db.products, c.id, ids) then
          Validation(BadRequest("Coupon not applicable to these products"), None)
        else Validation(Ok, Some(View(c)))
  }

  lemma DistinctSnoc(init: seq<ProductId>, last: ProductId)
    ensures AllDistinct(init + [last]) <==> AllDistinct(init) && last !in init
  {
    var ids := init + [last];
    if AllDistinct(init) && last !in init {
      forall i, j | 0 <= i < j < |ids| ensures ids[i] != ids[j] {
        assert ids[i] == init[i];
      }
    }
    if AllDistinct(ids) {
      forall i, j | 0 <= i < j < |init| ensures init[i] != init[j] {
        assert init[i] == ids[i] && init[j] == ids[j];
      }
      forall i | 0 <= i < |init| ensures init[i] != last {
        assert init[i] == ids[i] && ids[|init|] == last;
      }
    }
  }

  lemma ExistSnoc(products: map<ProductId, Product>, init: seq<ProductId>, last: ProductId)
    ensures AllExist(products, init + [last]) <==> AllExist(products, init) && last in products
  {
    var ids := init + [last];
    assert ids[|init|] == last;
    if AllExist(products, ids) {
      forall i | 0 <= i < |init| ensures init[i] in products {
        assert init[i] == ids[i];
      }
    }
  }

  /** The count of found products equals the number requested exactly when
      every requested id exists and none is repeated. */
  lemma {:induction false} FoundCount(products: map<ProductId, Product>, ids: seq<ProductId>)
    ensures |FoundIds(products, ids)| <= |ids|
    ensures |FoundIds(products, ids)| == |ids| <==> AllExist(products, ids) && AllDistinct(ids)
  {
    if |ids| > 0 {
      var init, last := ids[..|ids| - 1], ids[|ids| - 1];
      var before := FoundIds(products, init);
      FoundCount(products, init);
      assert ids == init + [last];
      DistinctSnoc(init, last);
      ExistSnoc(products, init, last);
      if last in products && last in before {
        assert FoundIds(products, ids) == before;
      } else if last in products {
        assert FoundIds(products, ids) == before + {last};
      } else {
        assert FoundIds(products, ids) == before;
      }
    }
  }

  /** In a valid store, a stored coupon validates under its own code exactly
      when it is active and not yet expired. */
  lemma OwnCodeValidates(db: Db, k: nat, now: int)
    requires CouponsValid(db.coupons) && k < |db.coupons|
    ensures var c := db.coupons[k];
      ValidateCoupon(db, c.code, None, now) ==
        if !c.isActive then Validation(NotFound("Coupon not found or inactive"), None)
        else if now > c.expirationDate then Validation(BadRequest("Coupon has expired"), None)
        else Validation(Ok, Some(View(c)))
  {
    FindOwnCode(db.coupons, k);
    NormalCodeIsFixed(db.coupons[k].code);
  }

  /** A coupon is still valid at its expiration instant and expired one tick later. */
  lemma ValidUntilExpiration(db: Db, k: nat)
    requires CouponsValid(db.coupons) && k < |db.coupons| && db.coupons[k].isActive
    ensures var c := db.coupons[k];
      && ValidateCoupon(db, c.code, None, c.expirationDate).outcome == Ok
      && ValidateCoupon(db, c.code, None, c.expirationDate + 1).outcome == BadRequest("Coupon has expired")
  {
    OwnCodeValidates(db, k, db.coupons[k].expirationDate);
    OwnCodeValidates(db, k, db.coupons[k].expirationDate + 1);
  }

  /** Naming one existing product twice is refused as missing products. */
  lemma RepeatedProductRefused(db: Db, k: nat, pid: ProductId)
    requires CouponsValid(db.coupons) && k < |db.coupons| && db.coupons[k].isActive && pid in db.products
    ensures var c := db.coupons[k];
      ValidateCoupon(db, c.code, Some([pid, pid]), c.expirationDate).outcome == BadRequest("Some products not found")
  {
    var ids := [pid, pid];
    FindOwnCode(db.coupons, k);
    NormalCodeIsFixed(db.coupons[k].code);
    assert !AllDistinct(ids) by {
      assert ids[0] == ids[1];
    }
    assert Requested(Some(ids));
  }

  // ------------------------------------------------------------ listing

  /** The coupons of `Coupon.find({ isActive: true, expirationDate: { $gte: now } })`,
      in store order. */
  function ActiveAt(coupons: seq<Coupon>, now: int): (r: seq<Coupon>)
    ensures |r| <= |coupons|
    ensures forall c :: c in r <==> c in coupons && c.isActive && c.expirationDate >= now
  {
    if |coupons| == 0 then []
    else
      var init, last := coupons[..|coupons| - 1], coupons[|coupons| - 1];
      assert coupons == init + [last];
      ActiveAt(init, now) + (if last.isActive && last.expirationDate >= now then [last] else [])
  }

  /** GET /api/coupons. */
  function GetActiveCoupons(db: Db, now: int): (r: seq<Coupon>)
    ensures forall c :: c in r <==> c in db.coupons && c.isActive && c.expirationDate >= now
  {
    ActiveAt(db.coupons, now)
  }

  /** The listing and the validation agree: in a valid store a coupon is
      listed exactly when it validates under its own code with no products. */
  lemma ListedIffValidates(db: Db, k: nat, now: int)
    requires CouponsValid(db.coupons) && k < |db.coupons|
    ensures db.coupons[k] in GetActiveCoupons(db, now) <==>
      ValidateCoupon(db, db.coupons[k].code, None, now).outcome == Ok
  {
    OwnCodeValidates(db, k, now);
  }

  // ------------------------------------------------------------- create

  /** The amounts, type and date of a create or update body; `None` is an
      absent field (for the date, also a falsy one), and `maxDiscountAmount`
      tells `null` apart from `undefined`. */
  datatype CouponFields = CouponFields(
    discountType: Option<string>,
    discountValue: Option<real>,
    minPurchaseAmount: Option<real>,
    maxDiscountAmount: Arg<real>,
    expirationDate: Option<int>)

  const NoFields := CouponFields(None, None, None, Undefined, None)

  /** `x !== undefined ? x : current` for the nullable maximum. */
  function MaxOr(x: Arg<real>, current: Option<real>): (r: Option<real>)
    ensures x.Undefined? ==> r == current
    ensures x.Null? ==> r.None?
    ensures x.Val? ==> r == Some(x.value)
  {
    match x
    case Undefined => current
    case Null => None
    case Val(v) => Some(v)
  }

  /** `new Coupon({...})` with `isActive: true`: the setters and defaults
      applied; `None` when a required field is absent, which fails at save. */
  function NewCoupon(id: CouponId, code: string, f: CouponFields): (r: Option<Coupon>)
    ensures r.Some? <==> f.discountType.Some? && f.discountValue.Some? && f.expirationDate.Some?
    ensures r.Some? ==>
      && r.value.id == id && r.value.code == NormalizeCode(code) && r.value.isActive
      && r.value.discountType == f.discountType.value
      && r.value.discountValue == f.discountValue.value
      && r.value.expirationDate == f.expirationDate.value
      && r.value.minPurchaseAmount == IfDefined(f.minPurchaseAmount, 0.0)
      && r.value.maxDiscountAmount == MaxOr(f.maxDiscountAmount, None)
  {
    if f.discountType.None? || f.discountValue.None? || f.expirationDate.None? then None
    else Some(Coupon(
      id := id,
      code := NormalizeCode(code),
      discountType := f.discountType.value,
      discountValue := f.discountValue.value,
      minPurchaseAmount := IfDefined(f.minPurchaseAmount, 0.0),
      maxDiscountAmount := MaxOr(f.maxDiscountAmount, None),
      expirationDate := f.expirationDate.value,
      isActive := true))
  }

  /** `Coupon.findOne({ code })`: some coupon, active or not, holds the code. */
  predicate CodeTaken(coupons: seq<Coupon>, code: string)
  {
    Find(coupons, AnyCode(code)).Some?
  }

  /** An id the store has not given to any coupon. */
  predicate FreshId(coupons: seq<Coupon>, id: CouponId)
  {
    forall i :: 0 <= i < |coupons| ==> coupons[i].id != id
  }

  /** POST /api/coupons.  `newId` is the id the store gives the new coupon. */
  function CreateCoupon(db: Db, code: string, f: CouponFields, newId: CouponId): (r: Response)
    requires FreshId(db.coupons, newId)
    ensures r.outcome == BadRequest("Coupon code already in use") <==> CodeTaken(db.coupons, NormalizeCode(code))
    ensures r.outcome != Created ==> r.db == db
    ensures r.outcome == Created ==>
      && !CodeTaken(db.coupons, NormalizeCode(code))
      && NewCoupon(newId, code, f).Some? && ValidCoupon(NewCoupon(newId, code, f).value)
      && r.db == db.(coupons := db.coupons + [NewCoupon(newId, code, f).value])
    ensures r.outcome == ServerError <==>
      !CodeTaken(db.coupons, NormalizeCode(code))
      && (NewCoupon(newId, code, f).None? || !ValidCoupon(NewCoupon(newId, code, f).value))
    ensures r.outcome in {Created, ServerError, BadRequest("Coupon code already in use")}
  {
    if CodeTaken(db.coupons, NormalizeCode(code)) then Response(BadRequest("Coupon code already in use"), db)
    else
      var c := NewCoupon(newId, code, f);
      if c.Some? && ValidCoupon(c.value) then Response(Created, db.(coupons := db.coupons + [c.value]))
      else Response(ServerError, db)
  }

  lemma CreateKeepsCouponsValid(db: Db, code: string, f: CouponFields, newId: CouponId)
    requires FreshId(db.coupons, newId) && CouponsValid(db.coupons)
    ensures CouponsValid(CreateCoupon(db, code, f, newId).db.coupons)
  {
    var r := CreateCoupon(db, code, f, newId);
    if r.outcome == Created {
      var c := NewCoupon(newId, code, f).value;
      forall i | 0 <= i < |db.coupons| ensures db.coupons[i].code != c.code && db.coupons[i].id != c.id {
        assert !Matches(db.coupons[i], AnyCode(c.code));
      }
      AppendKeepsValid(db.coupons, c);
    } else {
      assert r.db == db;
    }
  }

  /** A created coupon validates under the code it was created with until its
      expiration date, and a second create with that code is refused. */
  lemma CreatedCouponValidates(db: Db, code: string, f: CouponFields, newId: CouponId, now: int)
    requires FreshId(db.coupons, newId) && CouponsValid(db.coupons)
    requires CreateCoupon(db, code, f, newId).outcome == Created
    ensures var after := CreateCoupon(db, code, f, newId).db;
      var c := NewCoupon(newId, code, f).value;
      && (now <= c.expirationDate ==> ValidateCoupon(after, code, None, now) == Validation(Ok, Some(View(c))))
      && (forall id :: FreshId(after.coupons, id) ==>
            CreateCoupon(after, code, f, id).outcome == BadRequest("Coupon code already in use"))
  {
    var after := CreateCoupon(db, code, f, newId).db;
    var c := NewCoupon(newId, code, f).value;
    var n := |db.coupons|;
    assert after.coupons[n] == c;
    NormalizeCodeIdempotent(code);
    CreateKeepsCouponsValid(db, code, f, newId);
    OwnCodeValidates(after, n, now);
    assert Matches(after.coupons[n], AnyCode(NormalizeCode(code)));
  }

  // ------------------------------------------------------------- update

  /** The field assignments of PUT /api/coupons/:id: `x || old` for the code
      (through its setters), the type, the value and the date; `x !== undefined
      ? x : old` for the two amounts and `isActive`. */
  function MergeCoupon(cur: Coupon, code: Option<string>, f: CouponFields, isActive: Option<bool>): (m: Coupon)
    ensures m.id == cur.id
    ensures code.None? || code.value == "" ==> m.code == cur.code
    ensures code.Some? && code.value != "" ==> m.code == NormalizeCode(code.value)
    ensures f.discountType.None? || f.discountType.value == "" ==> m.discountType == cur.discountType
    ensures f.discountType.Some? && f.discountType.value != "" ==> m.discountType == f.discountType.value
    ensures f.discountValue.None? || f.discountValue.value == 0.0 ==> m.discountValue == cur.discountValue
    ensures f.discountValue.Some? && f.discountValue.value != 0.0 ==> m.discountValue == f.discountValue.value
    ensures m.minPurchaseAmount == (if f.minPurchaseAmount.Some? then f.minPurchaseAmount.value else cur.minPurchaseAmount)
    ensures f.maxDiscountAmount.Undefined? ==> m.maxDiscountAmount == cur.maxDiscountAmount
    ensures f.maxDiscountAmount.Null? ==> m.maxDiscountAmount.None?
    ensures f.maxDiscountAmount.Val? ==> m.maxDiscountAmount == Some(f.maxDiscountAmount.value)
    ensures f.expirationDate.None? ==> m.expirationDate == cur.expirationDate
    ensures f.expirationDate.Some? ==> m.expirationDate == f.expirationDate.value
    ensures isActive.None? ==> m.isActive == cur.isActive
    ensures isActive.Some? ==> m.isActive == isActive.value
  {
    Coupon(
      id := cur.id,
      code := if code.Some? && code.value != "" then NormalizeCode(code.value) else cur.code,
      discountType := OrString(f.discountType, cur.discountType),
      discountValue := OrNumber(f.discountValue, cur.discountValue),
      minPurchaseAmount := IfDefined(f.minPurchaseAmount, cur.minPurchaseAmount),
      maxDiscountAmount := MaxOr(f.maxDiscountAmount, cur.maxDiscountAmount),
      expirationDate := IfDefined(f.expirationDate, cur.expirationDate),
      isActive := IfDefined(isActive, cur.isActive))
  }

  /** The code guard of update: a truthy code that differs from the stored one,
      as sent, is looked up through the setters, and any coupon holding the
      result, the updated coupon itself included, blocks the update. */
  predicate RecodeBlocked(coupons: seq<Coupon>, cur: Coupon, code: Option<string>)
  {
    code.Some? && code.value != "" && code.value != cur.code && CodeTaken(coupons, NormalizeCode(code.value))
  }

  /** PUT /api/coupons/:id. */
  function UpdateCoupon(db: Db, id: CouponId, code: Option<string>, f: CouponFields, isActive: Option<bool>): (r: Response)
    ensures Find(db.coupons, WithId(id)).None? ==> r == Response(NotFound("Coupon not found"), db)
    ensures r.outcome.NotFound? <==> Find(db.coupons, WithId(id)).None?
    ensures r.outcome == BadRequest("Coupon code already in use") <==>
      var k := Find(db.coupons, WithId(id)); k.Some? && RecodeBlocked(db.coupons, db.coupons[k.value], code)
    ensures r.outcome != Ok ==> r.db == db
    ensures r.outcome == Ok ==>
      var k := Find(db.coupons, WithId(id));
      && k.Some?
      && ValidCoupon(MergeCoupon(db.coupons[k.value], code, f, isActive))
      && r.db == db.(coupons := db.coupons[k.value := MergeCoupon(db.coupons[k.value], code, f, isActive)])
    ensures r.outcome == ServerError <==>
      var k := Find(db.coupons, WithId(id));
      k.Some? && !RecodeBlocked(db.coupons, db.coupons[k.value], code)
      && !ValidCoupon(MergeCoupon(db.coupons[k.value], code, f, isActive))
    ensures r.outcome in {Ok, ServerError, NotFound("Coupon not found"), BadRequest("Coupon code already in use")}
  {
    var k := Find(db.coupons, WithId(id));
    if k.None? then Response(NotFound("Coupon not found"), db)
    else
      var cur := db.coupons[k.value];
      if RecodeBlocked(db.coupons, cur, code) then Response(BadRequest("Coupon code already in use"), db)
      else
        var m := MergeCoupon(cur, code, f, isActive);
        if ValidCoupon(m) then Response(Ok, db.(coupons := db.coupons[k.value := m]))
        else Response(ServerError, db)
  }

  /** Updates keep the coupon store valid; in particular the guard keeps codes
      unique, so the unique index never refuses the save of a valid store. */
  lemma UpdateKeepsCouponsValid(db: Db, id: CouponId, code: Option<string>, f: CouponFields, isActive: Option<bool>)
    requires CouponsValid(db.coupons)
    ensures CouponsValid(UpdateCoupon(db, id, code, f, isActive).db.coupons)
  {
    var r := UpdateCoupon(db, id, code, f, isActive);
    if r.outcome == Ok {
      var k := Find(db.coupons, WithId(id)).value;
      var cur := db.coupons[k];
      var m := MergeCoupon(cur, code, f, isActive);
      if code.Some? && code.value != "" && code.value != cur.code {
        forall i | 0 <= i < |db.coupons| ensures db.coupons[i].code != m.code {
          assert !Matches(db.coupons[i], AnyCode(m.code));
        }
      } else if code.Some? && code.value != "" {
        NormalCodeIsFixed(cur.code);
      }
      ReplaceKeepsValid(db.coupons, k, m);
    } else {
      assert r.db == db;
    }
  }

  /** A discount value of 0 keeps the old value, while `isActive: false`
      deactivates: afterwards the coupon no longer validates. */
  lemma ZeroValueKeptFalseActiveApplied(db: Db, k: nat, now: int)
    requires CouponsValid(db.coupons) && k < |db.coupons|
    ensures var c := db.coupons[k];
      var r := UpdateCoupon(db, c.id, None, NoFields.(discountValue := Some(0.0)), Some(false));
      && r.outcome == Ok
      && r.db.coupons[k] == c.(isActive := false)
      && ValidateCoupon(r.db, c.code, None, now).outcome == NotFound("Coupon not found or inactive")
  {
    var c := db.coupons[k];
    FindOwnId(db.coupons, k);
    var r := UpdateCoupon(db, c.id, None, NoFields.(discountValue := Some(0.0)), Some(false));
    assert r.db.coupons == db.coupons[k := c.(isActive := false)];
    UpdateKeepsCouponsValid(db, c.id, None, NoFields.(discountValue := Some(0.0)), Some(false));
    OwnCodeValidates(r.db, k, now);
  }

  /** Sending the stored code in lower case differs from it as sent, so the
      guard looks it up, finds the coupon itself and refuses the update. */
  lemma OwnCodeInLowerCaseRefused(c: Coupon, rest: seq<Coupon>)
    requires c.code == "SAVE"
    ensures UpdateCoupon(Db(map[], map[], [c] + rest, []), c.id, Some("save"), NoFields, None).outcome
      == BadRequest("Coupon code already in use")
  {
    var coupons := [c] + rest;
    assert ToUpper("save") == "SAVE" by {
      assert ToUpper("save")[0] == 'S' && ToUpper("save")[1] == 'A';
      assert ToUpper("save")[2] == 'V' && ToUpper("save")[3] == 'E';
    }
    assert Trimmed("SAVE") by {
      assert !IsSpace('S') && !IsSpace('E');
    }
    TrimOfTrimmed("SAVE");
    assert NormalizeCode("save") == "SAVE";
    assert Matches(coupons[0], WithId(c.id)) && Matches(coupons[0], AnyCode("SAVE"));
  }

  // ------------------------------------------------------------- delete

  /** `$pull`: every occurrence of `x` removed, the rest in order. */
  function Pull(s: seq<CouponId>, x: CouponId): (r: seq<CouponId>)
    ensures x !in r
    ensures |r| <= |s|
  {
    if |s| == 0 then []
    else (if s[0] == x then [] else [s[0]]) + Pull(s[1..], x)
  }

  /** Pulling distributes over concatenation and keeps every other id: this
      fixes the result as the ids other than `x`, in their original order. */
  lemma {:induction false} PullAppend(a: seq<CouponId>, b: seq<CouponId>, x: CouponId)
    ensures Pull(a + b, x) == Pull(a, x) + Pull(b, x)
  {
    if |a| > 0 {
      assert (a + b)[1..] == a[1..] + b;
      PullAppend(a[1..], b, x);
    } else {
      assert a + b == b;
    }
  }

  lemma {:induction false} PullCounts(s: seq<CouponId>, x: CouponId, y: CouponId)
    ensures multiset(Pull(s, x))[y] == if y == x then 0 else multiset(s)[y]
  {
    if |s| > 0 {
      PullCounts(s[1..], x, y);
      assert s == [s[0]] + s[1..];
    }
  }

  lemma {:induction false} PullAbsent(s: seq<CouponId>, x: CouponId)
    requires x !in s
    ensures Pull(s, x) == s
  {
    if |s| > 0 {
      assert x !in s[1..];
      PullAbsent(s[1..], x);
    }
  }

  /** The products after `Product.updateMany({ couponCodes: id }, { $pull: { couponCodes: id } })`. */
  function PullEverywhere(products: map<ProductId, Product>, id: CouponId): (r: map<ProductId, Product>)
    ensures r.Keys == products.Keys
    ensures forall pid :: pid in r ==> id !in r[pid].couponCodes
  {
    map pid | pid in products ::
      if id in products[pid].couponCodes then products[pid].(couponCodes := Pull(products[pid].couponCodes, id))
      else products[pid]
  }

  /** DELETE /api/coupons/:id. */
  function DeleteCoupon(db: Db, id: CouponId): (r: Response)
    ensures r.outcome == NotFound("Coupon not found") <==> FreshId(db.coupons, id)
    ensures FreshId(db.coupons, id) ==> r.db == db
    ensures r.outcome in {Ok, NotFound("Coupon not found")}
    ensures r.outcome == Ok ==>
      var k := Find(db.coupons, WithId(id)).value;
      && r.db.coupons == db.coupons[..k] + db.coupons[k + 1..]
      && r.db.categories == db.categories && r.db.reviews == db.reviews
      && r.db.products.Keys == db.products.Keys
      && forall pid :: pid in r.db.products ==>
           r.db.products[pid] == db.products[pid].(couponCodes := Pull(db.products[pid].couponCodes, id))
  {
    var k := Find(db.coupons, WithId(id));
    if k.None? then Response(NotFound("Coupon not found"), db)
    else
      var after := PullEverywhere(db.products, id);
      assert forall pid :: pid in after ==>
        after[pid] == db.products[pid].(couponCodes := Pull(db.products[pid].couponCodes, id)) by {
        forall pid | pid in after
          ensures after[pid] == db.products[pid].(couponCodes := Pull(db.products[pid].couponCodes, id))
        {
          if id !in db.products[pid].couponCodes {
            PullAbsent(db.products[pid].couponCodes, id);
          }
        }
      }
      Response(Ok, Db(after, db.categories, db.coupons[..k.value] + db.coupons[k.value + 1..], db.reviews))
  }

  /** After a delete no product refers to the coupon, every other coupon id a
      product listed is still there as often as before, and a second delete of
      the same id answers 404. */
  lemma DeleteLeavesNoReference(db: Db, id: CouponId)
    requires CouponsValid(db.coupons) && !FreshId(db.coupons, id)
    ensures var after := DeleteCoupon(db, id).db;
      && (forall pid :: pid in after.products ==> id !in after.products[pid].couponCodes)
      && (forall pid, other :: pid in after.products && other != id ==>
            multiset(after.products[pid].couponCodes)[other] == multiset(db.products[pid].couponCodes)[other])
      && DeleteCoupon(after, id) == Response(NotFound("Coupon not found"), after)
  {
    var after := DeleteCoupon(db, id).db;
    var k := Find(db.coupons, WithId(id)).value;
    forall pid, other | pid in after.products && other != id
      ensures multiset(after.products[pid].couponCodes)[other] == multiset(db.products[pid].couponCodes)[other]
    {
      PullCounts(db.products[pid].couponCodes, id, other);
    }
    forall pid | pid in after.products ensures id !in after.products[pid].couponCodes {
      PullCounts(db.products[pid].couponCodes, id, id);
    }
    forall i | 0 <= i < |after.coupons| ensures after.coupons[i].id != id {
      if i < k {
        assert after.coupons[i] == db.coupons[i];
      } else {
        assert after.coupons[i] == db.coupons[i + 1];
      }
    }
  }
}
