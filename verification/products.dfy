/** The product controller's decision procedures: payload validation for
    create and update, translation of database errors into API errors, and
    the outcome tables of the create, update and delete handlers. Database
    calls are not modelled; their outcomes are inputs.
 */
module Products {
  import opened Wrappers
  import opened Seqs
  import opened Strings
  import opened Js
  import opened Http

  /** The largest value a `numeric(10, 2)` column holds. */
  const MaxValue: real := 99999999.99

  /** The bound as the overflow messages print it (en-US grouping). */
  const MaxValueText: string := "99,999,999.99"

  /** The price fields checked against the bound, in the order they are checked. */
  const PriceFields: seq<string> := ["price_kg", "price_ons", "price_pcs", "price_liter"]

  /** A request body for creating or updating a product. The keys of `prices`
      are full property names such as "price_kg"; a key that is missing reads
      as `undefined`. */
  datatype Payload = Payload(
    name: Field<string>,
    categoryId: Field<string>,
    unitType: Field<string>,
    stock: Field<real>,
    prices: map<string, Field<real>>)

  /** `productData[field]` for a price property. */
  function Price(p: Payload, field: string): Field<real> {
    if field in p.prices then p.prices[field] else Undefined
  }

  /** The property name `price_${unit_type}`. */
  function PriceFieldOf(unit: Field<string>): string {
    "price_" + Interpolate(unit)
  }

  /** `!name || !name.trim()`. */
  predicate NameMissing(name: Field<string>) {
    !TruthyText(name) || Trim(name.value) == ""
  }

  /** `!price || price <= 0`. */
  predicate PriceMissing(price: Field<real>) {
    !TruthyNumber(price) || AtMost(price, 0.0)
  }

  datatype Mode = Create | Update

  /** The bound check on one numeric property. Create guards it with
      truthiness (`v && v > max`), update with `v !== undefined && v > max`. */
  predicate Exceeds(mode: Mode, v: Field<real>) {
    (if mode == Create then TruthyNumber(v) else v != Undefined) && GreaterThan(v, MaxValue)
  }

  /** A position in `PriceFields`. */
  type PriceIndex = k: nat | k < |PriceFields|

  /** The position of the first price field, in `PriceFields` order, whose
      value is over the bound. */
  function FirstOverflow(p: Payload, mode: Mode): Option<nat> {
    FirstMatch(PriceFields, f => Exceeds(mode, Price(p, f)))
  }

  /** The reasons a payload is turned away with a 400 before the database is
      reached. Each carries the `error` text the client receives. */
  datatype Rejection =
    | NameRequired
    | NameEmpty
    | CategoryRequired
    | UnitTypeRequired
    | UnitPriceRequired(unit: string)
    | PriceTooLarge(field: PriceIndex)
    | StockTooLarge
  {
    function Message(): string {
      match this
      case NameRequired => "Product name is required"
      case NameEmpty => "Product name cannot be empty"
      case CategoryRequired => "Category is required"
      case UnitTypeRequired => "Unit type is required"
      case UnitPriceRequired(u) => "Valid price for " + u + " is required"
      case PriceTooLarge(k) => ToUpperAscii(ReplaceFirst(PriceFields[k], "price_", "")) + " price cannot exceed " + MaxValueText
      case StockTooLarge => "Stock cannot exceed " + MaxValueText
    }
  }

  /** The checks `createProduct` runs before inserting, first failure wins. */
  function ValidateCreate(p: Payload): Option<Rejection> {
    if NameMissing(p.name) then Some(NameRequired)
    else if !TruthyText(p.categoryId) then Some(CategoryRequired)
    else if !TruthyText(p.unitType) then Some(UnitTypeRequired)
    else if PriceMissing(Price(p, PriceFieldOf(p.unitType))) then Some(UnitPriceRequired(Interpolate(p.unitType)))
    else if FirstOverflow(p, Create).Some? then Some(PriceTooLarge(FirstOverflow(p, Create).value))
    else if Exceeds(Create, p.stock) then Some(StockTooLarge)
    else None
  }

  /** The checks `updateProduct` runs before updating, first failure wins.
      Only properties present in the body are checked. */
  function ValidateUpdate(p: Payload): Option<Rejection> {
    if p.name != Undefined && NameMissing(p.name) then Some(NameEmpty)
    else if p.unitType != Undefined && PriceMissing(Price(p, PriceFieldOf(p.unitType))) then
      Some(UnitPriceRequired(Interpolate(p.unitType)))
    else if FirstOverflow(p, Update).Some? then Some(PriceTooLarge(FirstOverflow(p, Update).value))
    else if Exceeds(Update, p.stock) then Some(StockTooLarge)
    else None
  }

  function Validate(p: Payload, mode: Mode): Option<Rejection> {
    if mode == Create then ValidateCreate(p) else ValidateUpdate(p)
  }

  // ---------------------------------------------------------------------
  // Reference definitions, stated without JavaScript coercions

  /** A numeric property that is absent, `null` or at most the bound. */
  predicate WithinBound(v: Field<real>) {
    v.Defined? ==> v.value <= MaxValue
  }

  /** A numeric property that holds a strictly positive number. */
  predicate PositivePrice(v: Field<real>) {
    v.Defined? && v.value > 0.0
  }

  /** A name holding at least one character that is not white space. */
  predicate NameGiven(name: Field<string>) {
    name.Defined? && !IsBlank(name.value)
  }

  /** The name rule: create requires a name; update requires a present name
      to be non-blank. */
  function NameRule(p: Payload, mode: Mode): set<Rejection> {
    if mode == Create then (if NameGiven(p.name) then {} else {NameRequired})
    else (if p.name == Undefined || NameGiven(p.name) then {} else {NameEmpty})
  }

  /** Create requires a category; update does not. A category is given
      exactly when the property is truthy, so this rule and the guard of
      the validator share `TruthyText`. */
  function CategoryRule(p: Payload, mode: Mode): set<Rejection> {
    if mode == Create && !TruthyText(p.categoryId) then {CategoryRequired} else {}
  }

  /** Create requires a unit type; update does not. As with the category,
      the rule is the validator's truthiness guard. */
  function UnitRule(p: Payload, mode: Mode): set<Rejection> {
    if mode == Create && !TruthyText(p.unitType) then {UnitTypeRequired} else {}
  }

  /** A given unit type needs a positive price under `price_<unit>` in the
      same body. Create considers the rule once a unit type is given at all;
      update whenever the property is present. */
  function UnitPriceRule(p: Payload, mode: Mode): set<Rejection> {
    var applies := if mode == Create then TruthyText(p.unitType) else p.unitType != Undefined;
    if applies && !PositivePrice(Price(p, PriceFieldOf(p.unitType)))
    then {UnitPriceRequired(Interpolate(p.unitType))} else {}
  }

  /** The stock bound. */
  function StockRule(p: Payload): set<Rejection> {
    if WithinBound(p.stock) then {} else {StockTooLarge}
  }

  /** Every rule of the given mode that the payload breaks, each stated on its own. */
  function Violations(p: Payload, mode: Mode): set<Rejection> {
    NameRule(p, mode) + CategoryRule(p, mode) + UnitRule(p, mode) + UnitPriceRule(p, mode) + PriceViolations(p) + StockRule(p)
  }

  /** The priority of a rejection: lower is checked earlier. */
  function Rank(r: Rejection): nat {
    match r
    case NameRequired => 0
    case NameEmpty => 0
    case CategoryRequired => 1
    case UnitTypeRequired => 2
    case UnitPriceRequired(_) => 3
    case PriceTooLarge(k) => 4 + k
    case StockTooLarge => 8
  }

  // ---------------------------------------------------------------------
  // Properties of validation

  /** The create guard (truthiness) and the update guard (`!== undefined`)
      decide the bound check identically: both hold exactly for a number
      above the bound. */
  lemma ExceedsMeansAboveBound(mode: Mode, v: Field<real>)
    ensures Exceeds(mode, v) <==> !WithinBound(v)
  {
  }

  /** The price check rejects exactly the absent, null, zero and negative prices. */
  lemma PriceMissingMeansNotPositive(v: Field<real>)
    ensures PriceMissing(v) <==> !PositivePrice(v)
  {
  }

  /** The name check rejects exactly the absent, null, empty and blank names. */
  lemma NameMissingMeansNotGiven(name: Field<string>)
    ensures NameMissing(name) <==> !NameGiven(name)
  {
    if name.Defined? {
      TrimEmptyIffBlank(name.value);
    }
  }

  /** Both modes find the same first overflowing price field, and there is
      none exactly when every price field is within the bound. */
  lemma OverflowModesAgree(p: Payload)
    ensures FirstOverflow(p, Create) == FirstOverflow(p, Update)
    ensures FirstOverflow(p, Create).None? <==>
      forall k :: 0 <= k < |PriceFields| ==> WithinBound(Price(p, PriceFields[k]))
  {
    forall k | 0 <= k < |PriceFields|
      ensures Exceeds(Create, Price(p, PriceFields[k])) == Exceeds(Update, Price(p, PriceFields[k]))
      ensures Exceeds(Create, Price(p, PriceFields[k])) <==> !WithinBound(Price(p, PriceFields[k]))
    {
      ExceedsMeansAboveBound(Create, Price(p, PriceFields[k]));
      ExceedsMeansAboveBound(Update, Price(p, PriceFields[k]));
    }
    FirstMatchAgree(PriceFields, f => Exceeds(Create, Price(p, f)), f => Exceeds(Update, Price(p, f)));
  }

  /** The price-bound rule's violations, one per price field over the bound. */
  function PriceViolations(p: Payload): set<Rejection> {
    set k | 0 <= k < |PriceFields| && !WithinBound(Price(p, PriceFields[k])) :: PriceTooLarge(k)
  }

  /** The overflow loop reports the earliest field among the price-bound violations. */
  lemma FirstOverflowIsEarliest(p: Payload, mode: Mode)
    ensures PriceViolations(p) == {} <==> FirstOverflow(p, mode).None?
    ensures FirstOverflow(p, mode).Some? ==>
      && PriceTooLarge(FirstOverflow(p, mode).value) in PriceViolations(p)
      && forall v :: v in PriceViolations(p) ==> Rank(PriceTooLarge(FirstOverflow(p, mode).value)) <= Rank(v)
  {
    forall j | 0 <= j < |PriceFields|
      ensures Exceeds(mode, Price(p, PriceFields[j])) <==> !WithinBound(Price(p, PriceFields[j]))
    {
      ExceedsMeansAboveBound(mode, Price(p, PriceFields[j]));
    }
    if FirstOverflow(p, mode).Some? {
      var k := FirstOverflow(p, mode).value;
      assert PriceTooLarge(k) in PriceViolations(p);
    }
  }

  /** Every rule a payload breaks ranks at least `k` when the rules ranked
      below `k` all hold. */
  lemma RanksFrom(p: Payload, mode: Mode, k: nat)
    requires k > 0 ==> NameRule(p, mode) == {}
    requires k > 1 ==> CategoryRule(p, mode) == {}
    requires k > 2 ==> UnitRule(p, mode) == {}
    requires k > 3 ==> UnitPriceRule(p, mode) == {}
    requires k > 4 ==> PriceViolations(p) == {}
    requires k <= 8
    ensures forall v :: v in Violations(p, mode) ==> k <= Rank(v)
  {
  }

  /** Once the earlier rules hold, the first overflowing price field outranks
      every broken rule. */
  lemma OverflowOutranksLaterRules(p: Payload, mode: Mode)
    requires NameRule(p, mode) == {} && CategoryRule(p, mode) == {}
    requires UnitRule(p, mode) == {} && UnitPriceRule(p, mode) == {}
    requires FirstOverflow(p, mode).Some?
    ensures PriceTooLarge(FirstOverflow(p, mode).value) in Violations(p, mode)
    ensures forall v :: v in Violations(p, mode) ==> Rank(PriceTooLarge(FirstOverflow(p, mode).value)) <= Rank(v)
  {
    FirstOverflowIsEarliest(p, mode);
    forall v | v in Violations(p, mode) ensures Rank(PriceTooLarge(FirstOverflow(p, mode).value)) <= Rank(v) {
      assert v in PriceViolations(p) || v in StockRule(p);
    }
  }

  lemma CreateFirstViolation(p: Payload)
    ensures ValidateCreate(p).None? <==> Violations(p, Create) == {}
    ensures ValidateCreate(p).Some? ==> ValidateCreate(p).value in Violations(p, Create)
    ensures ValidateCreate(p).Some? ==>
      forall v :: v in Violations(p, Create) ==> Rank(ValidateCreate(p).value) <= Rank(v)
  {
    NameMissingMeansNotGiven(p.name);
    if NameMissing(p.name) {
      assert NameRequired in NameRule(p, Create);
      return;
    }
    assert NameRule(p, Create) == {};
    if !TruthyText(p.categoryId) {
      assert CategoryRequired in CategoryRule(p, Create);
      RanksFrom(p, Create, 1);
      return;
    }
    assert CategoryRule(p, Create) == {};
    if !TruthyText(p.unitType) {
      assert UnitTypeRequired in UnitRule(p, Create);
      RanksFrom(p, Create, 2);
      return;
    }
    CreatePriceStages(p);
  }

  /** The create checks from the unit's price on, once name, category and
      unit type are given. */
  lemma CreatePriceStages(p: Payload)
    requires !NameMissing(p.name) && NameRule(p, Create) == {}
    requires TruthyText(p.categoryId) && TruthyText(p.unitType)
    ensures ValidateCreate(p).None? <==> Violations(p, Create) == {}
    ensures ValidateCreate(p).Some? ==> ValidateCreate(p).value in Violations(p, Create)
    ensures ValidateCreate(p).Some? ==>
      forall v :: v in Violations(p, Create) ==> Rank(ValidateCreate(p).value) <= Rank(v)
  {
    assert CategoryRule(p, Create) == {} && UnitRule(p, Create) == {};
    PriceMissingMeansNotPositive(Price(p, PriceFieldOf(p.unitType)));
    if PriceMissing(Price(p, PriceFieldOf(p.unitType))) {
      assert UnitPriceRequired(Interpolate(p.unitType)) in UnitPriceRule(p, Create);
      RanksFrom(p, Create, 3);
      return;
    }
    assert UnitPriceRule(p, Create) == {};
    FirstOverflowIsEarliest(p, Create);
    if FirstOverflow(p, Create).Some? {
      OverflowOutranksLaterRules(p, Create);
      return;
    }
    ExceedsMeansAboveBound(Create, p.stock);
    RanksFrom(p, Create, 8);
  }

  lemma UpdateFirstViolation(p: Payload)
    ensures ValidateUpdate(p).None? <==> Violations(p, Update) == {}
    ensures ValidateUpdate(p).Some? ==> ValidateUpdate(p).value in Violations(p, Update)
    ensures ValidateUpdate(p).Some? ==>
      forall v :: v in Violations(p, Update) ==> Rank(ValidateUpdate(p).value) <= Rank(v)
  {
    NameMissingMeansNotGiven(p.name);
    if p.name != Undefined && NameMissing(p.name) {
      assert NameEmpty in NameRule(p, Update);
      return;
    }
    assert NameRule(p, Update) == {};
    assert CategoryRule(p, Update) == {};
    assert UnitRule(p, Update) == {};
    PriceMissingMeansNotPositive(Price(p, PriceFieldOf(p.unitType)));
    if p.unitType != Undefined && PriceMissing(Price(p, PriceFieldOf(p.unitType))) {
      assert UnitPriceRequired(Interpolate(p.unitType)) in UnitPriceRule(p, Update);
      RanksFrom(p, Update, 3);
      return;
    }
    assert UnitPriceRule(p, Update) == {};
    FirstOverflowIsEarliest(p, Update);
    if FirstOverflow(p, Update).Some? {
      OverflowOutranksLaterRules(p, Update);
      return;
    }
    ExceedsMeansAboveBound(Update, p.stock);
    RanksFrom(p, Update, 8);
  }

  /** The first-failure policy: a payload is accepted exactly when it breaks
      no rule, and otherwise the rejection reported is a broken rule of the
      highest priority. */
  lemma FirstViolationReported(p: Payload, mode: Mode)
    ensures Validate(p, mode).None? <==> Violations(p, mode) == {}
    ensures Validate(p, mode).Some? ==> Validate(p, mode).value in Violations(p, mode)
    ensures Validate(p, mode).Some? ==>
      forall v :: v in Violations(p, mode) ==> Rank(Validate(p, mode).value) <= Rank(v)
  {
    if mode == Create {
      CreateFirstViolation(p);
    } else {
      UpdateFirstViolation(p);
    }
  }

  /** Acceptance by `createProduct`, in plain terms. A value exactly at the
      bound is accepted. */
  lemma CreateAcceptance(p: Payload)
    ensures ValidateCreate(p).None? <==>
      && NameGiven(p.name)
      && TruthyText(p.categoryId)
      && TruthyText(p.unitType)
      && PositivePrice(Price(p, "price_" + p.unitType.value))
      && (forall k :: 0 <= k < |PriceFields| ==> WithinBound(Price(p, PriceFields[k])))
      && WithinBound(p.stock)
  {
    NameMissingMeansNotGiven(p.name);
    PriceMissingMeansNotPositive(Price(p, PriceFieldOf(p.unitType)));
    ExceedsMeansAboveBound(Create, p.stock);
    OverflowModesAgree(p);
  }

  /** Acceptance by `updateProduct`, in plain terms: each rule constrains
      only a property the body carries, and the unit's price is looked up in
      the body itself. */
  lemma UpdateAcceptance(p: Payload)
    ensures ValidateUpdate(p).None? <==>
      && (p.name != Undefined ==> NameGiven(p.name))
      && (p.unitType != Undefined ==> PositivePrice(Price(p, PriceFieldOf(p.unitType))))
      && (forall k :: 0 <= k < |PriceFields| ==> WithinBound(Price(p, PriceFields[k])))
      && WithinBound(p.stock)
  {
    NameMissingMeansNotGiven(p.name);
    PriceMissingMeansNotPositive(Price(p, PriceFieldOf(p.unitType)));
    ExceedsMeansAboveBound(Update, p.stock);
    OverflowModesAgree(p);
  }

  /** Every body `createProduct` accepts, `updateProduct` accepts too. */
  lemma CreateAcceptedImpliesUpdateAccepted(p: Payload)
    requires ValidateCreate(p).None?
    ensures ValidateUpdate(p).None?
  {
    CreateAcceptance(p);
    UpdateAcceptance(p);
  }

  /** A body carrying only `stock` is checked against the stock bound and nothing else. */
  lemma StockOnlyUpdate(stock: real)
    ensures ValidateUpdate(Payload(Undefined, Undefined, Undefined, Defined(stock), map[])) ==
      (if stock > MaxValue then Some(StockTooLarge) else None)
    ensures ValidateCreate(Payload(Undefined, Undefined, Undefined, Defined(stock), map[])) == Some(NameRequired)
  {
    var p := Payload(Undefined, Undefined, Undefined, Defined(stock), map[]);
    OverflowModesAgree(p);
  }

  /** A create body whose unit's price is absent, null, zero or negative is
      rejected naming the unit, whatever the other prices are. */
  lemma UnitPriceRejection(p: Payload)
    requires NameGiven(p.name) && TruthyText(p.categoryId) && TruthyText(p.unitType)
    requires !PositivePrice(Price(p, "price_" + p.unitType.value))
    ensures ValidateCreate(p) == Some(UnitPriceRequired(p.unitType.value))
    ensures ValidateCreate(p).value.Message() == "Valid price for " + p.unitType.value + " is required"
  {
    NameMissingMeansNotGiven(p.name);
    PriceMissingMeansNotPositive(Price(p, PriceFieldOf(p.unitType)));
  }

  /** The overflow message names the unit, taken from the field name after
      `price_`, in upper case. */
  lemma OverflowMessageNamesUnit(k: PriceIndex)
    ensures PriceFields[k][..6] == "price_"
    ensures PriceTooLarge(k).Message() ==
      ToUpperAscii(PriceFields[k][6..]) + " price cannot exceed " + MaxValueText
  {
    var unit := PriceFields[k][6..];
    assert PriceFields[k] == PriceFields[k][..6] + unit;
    ReplacePrefix("price_", unit);
  }

  // ---------------------------------------------------------------------
  // Database errors and the handlers' responses

  /** A PostgREST error object: SQLSTATE or PostgREST `code`, `details`, `message`. */
  datatype DbError = DbError(code: Option<string>, details: Option<string>, message: Option<string>)

  /** The outcome of an insert or update that selects the written row back. */
  datatype WriteResult = Written(row: Option<Row>) | WriteFailed(error: DbError)

  /** `error.details && error.details.includes(word)`. */
  predicate DetailsMention(e: DbError, word: string) {
    e.details.Some? && e.details.value != "" && Contains(e.details.value, word)
  }

  /** SQLSTATE 23505 unique_violation on the barcode column. */
  predicate IsDuplicateBarcode(e: DbError) {
    e.code == Some("23505") && DetailsMention(e, "barcode")
  }

  /** SQLSTATE 23503 foreign_key_violation on the category column. */
  predicate IsUnknownCategory(e: DbError) {
    e.code == Some("23503") && DetailsMention(e, "category_id")
  }

  /** SQLSTATE 22003 numeric_value_out_of_range. */
  predicate IsNumericOverflow(e: DbError) {
    e.code == Some("22003")
  }

  const WriteErrorTexts: set<string> := {
    "Product with this barcode already exists",
    "Invalid category selected",
    "One or more numeric values exceed the maximum allowed limit (99,999,999.99)",
    "Failed to create product",
    "Failed to update product"
  }

  /** The catch block shared by `createProduct` and `updateProduct`. */
  function WriteErrorResponse(e: DbError, mode: Mode): (r: Response)
    ensures r.body.ErrorBody? && r.body.error in WriteErrorTexts
    ensures r.status == 409 <==> IsDuplicateBarcode(e)
    ensures r.status == 400 <==> IsUnknownCategory(e) || IsNumericOverflow(e)
    ensures r.status == 500 <==> !IsDuplicateBarcode(e) && !IsUnknownCategory(e) && !IsNumericOverflow(e)
    ensures r.body.code.Some? <==> r.status != 500
    ensures IsDuplicateBarcode(e) ==> r.body.code == Some("DUPLICATE_BARCODE")
    ensures IsUnknownCategory(e) ==> r.body.code == Some("INVALID_CATEGORY")
    ensures IsNumericOverflow(e) ==> r.body.code == Some("NUMERIC_OVERFLOW")
    ensures r.body.details == (if r.status == 500 && mode == Create then e.message else None)
    ensures IsDuplicateBarcode(e) ==> r == Coded(409, "Product with this barcode already exists", "DUPLICATE_BARCODE")
    ensures IsUnknownCategory(e) ==> r == Coded(400, "Invalid category selected", "INVALID_CATEGORY")
    ensures IsNumericOverflow(e) ==>
      r == Coded(400, "One or more numeric values exceed the maximum allowed limit (99,999,999.99)", "NUMERIC_OVERFLOW")
    ensures r.status == 500 ==>
      r.body.error == (if mode == Create then "Failed to create product" else "Failed to update product")
  {
    if IsDuplicateBarcode(e) then
      Coded(409, "Product with this barcode already exists", "DUPLICATE_BARCODE")
    else if IsUnknownCategory(e) then
      Coded(400, "Invalid category selected", "INVALID_CATEGORY")
    else if IsNumericOverflow(e) then
      Coded(400, "One or more numeric values exceed the maximum allowed limit (99,999,999.99)", "NUMERIC_OVERFLOW")
    else if mode == Create then
      Response(500, ErrorBody("Failed to create product", None, e.message))
    else
      Plain(500, "Failed to update product")
  }

  /** Create and update translate every database error to the same status
      and code; only the 500 bodies differ. */
  lemma TranslationsAgree(e: DbError)
    ensures WriteErrorResponse(e, Create).status == WriteErrorResponse(e, Update).status
    ensures WriteErrorResponse(e, Create).body.code == WriteErrorResponse(e, Update).body.code
    ensures WriteErrorResponse(e, Create).status != 500 ==>
      WriteErrorResponse(e, Create) == WriteErrorResponse(e, Update)
  {
  }

  /** `createProduct`: validation, then the insert's outcome. */
  function CreateProduct(p: Payload, insert: WriteResult): (r: Response)
    ensures r.status in {201, 400, 409, 500}
    ensures r.status == 201 <==> ValidateCreate(p).None? && insert.Written?
    ensures r.status == 201 ==> r.body == RowBody(insert.row)
    ensures ValidateCreate(p).Some? ==>
      r == Plain(400, ValidateCreate(p).value.Message())
    ensures ValidateCreate(p).None? && insert.WriteFailed? ==>
      r == WriteErrorResponse(insert.error, Create)
  {
    match ValidateCreate(p)
    case Some(rejection) => Plain(400, rejection.Message())
    case None =>
      match insert
      case Written(row) => Response(201, RowBody(row))
      case WriteFailed(e) => WriteErrorResponse(e, Create)
  }

  /** A rejected body never reaches the insert: the response does not depend
      on what the insert would have returned. */
  lemma RejectedCreateSkipsInsert(p: Payload, a: WriteResult, b: WriteResult)
    requires ValidateCreate(p).Some?
    ensures CreateProduct(p, a) == CreateProduct(p, b)
    ensures CreateProduct(p, a).status == 400 && CreateProduct(p, a).body.code.None?
  {
  }

  /** `updateProduct`: validation, then the update's outcome. */
  function UpdateProduct(p: Payload, update: WriteResult): (r: Response)
    ensures r.status in {200, 400, 404, 409, 500}
    ensures r.status == 200 <==> ValidateUpdate(p).None? && update.Written? && update.row.Some?
    ensures r.status == 200 ==> r.body == RowBody(update.row)
    ensures r.status == 404 <==> ValidateUpdate(p).None? && update == Written(None)
    ensures r.status == 404 ==> r == Plain(404, "Product not found")
    ensures ValidateUpdate(p).Some? ==>
      r == Plain(400, ValidateUpdate(p).value.Message())
    ensures ValidateUpdate(p).None? && update.WriteFailed? ==>
      r == WriteErrorResponse(update.error, Update)
  {
    match ValidateUpdate(p)
    case Some(rejection) => Plain(400, rejection.Message())
    case None =>
      match update
      case Written(None) => Plain(404, "Product not found")
      case Written(Some(row)) => Response(200, RowBody(Some(row)))
      case WriteFailed(e) => WriteErrorResponse(e, Update)
  }

  /** A rejected body never reaches the update. */
  lemma RejectedUpdateSkipsUpdate(p: Payload, a: WriteResult, b: WriteResult)
    requires ValidateUpdate(p).Some?
    ensures UpdateProduct(p, a) == UpdateProduct(p, b)
    ensures UpdateProduct(p, a).status == 400 && UpdateProduct(p, a).body.code.None?
  {
  }

  /** `deleteProduct`: the existence check's error (if any), then the
      delete's error (if any); the delete runs only after a clean check. */
  function DeleteProduct(check: Option<DbError>, delete: Option<DbError>): (r: Response)
    ensures r.status in {200, 404, 409, 500}
    ensures r.status == 404 <==> check.Some? && check.value.code == Some("PGRST116")
    ensures r.status == 409 <==>
      (check.Some? && check.value.code == Some("23503")) ||
      (check.None? && delete.Some? && delete.value.code == Some("23503"))
    ensures r.status == 409 ==> r.body.ErrorBody? && r.body.code == Some("PRODUCT_IN_USE")
    ensures r.status == 200 <==> check.None? && delete.None?
    ensures r.status == 200 ==> r.body == MessageBody("Product deleted successfully")
    ensures r.status == 404 ==> r == Plain(404, "Product not found")
    ensures r.status == 409 ==>
      r == Coded(409, "Cannot delete product as it is referenced in sales records", "PRODUCT_IN_USE")
    ensures r.status == 500 ==> r == Plain(500, "Failed to delete product")
  {
    if check.Some? && check.value.code == Some("PGRST116") then
      Plain(404, "Product not found")
    else
      var thrown := if check.Some? then check else delete;
      match thrown
      case None => Response(200, MessageBody("Product deleted successfully"))
      case Some(e) =>
        if e.code == Some("23503") then
          Coded(409, "Cannot delete product as it is referenced in sales records", "PRODUCT_IN_USE")
        else
          Plain(500, "Failed to delete product")
  }

  /** A failed existence check ends the request before the delete runs. */
  lemma FailedCheckSkipsDelete(e: DbError, a: Option<DbError>, b: Option<DbError>)
    ensures DeleteProduct(Some(e), a) == DeleteProduct(Some(e), b)
  {
  }
}
