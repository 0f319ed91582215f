/**
 * The parameter store of one Robokassa payment: the typed record of the
 * standard fields that replaces the Go `data map[string]interface{}`, the
 * untyped view of that record as the Go map holds it, amount truncation,
 * and the two map helpers `mergeMaps` and `convertMapStringToInterface`.
 */
module Store {
  import opened Wrappers
  import opened Text

  const CultureEn: string := "en"
  const CultureRu: string := "ru"

  /** The prefix that marks a key as a merchant-defined (custom) parameter. */
  const CustomPrefix: string := "shp_"

  /** The source's error values; MissingSignatureValue stands for the run-time panic of a failed type assertion. */
  datatype Error = InvalidSum | EmptyDescription | InvalidInvoiceId | EmptyReceipt | InvalidParam | MissingSignatureValue

  /** An `interface{}` value as the payment's data map holds it. */
  datatype Value = Str(s: string) | Int(i: int) | Amount(cents: nat) | Flag(b: bool) | Nil

  /**
   * The standard fields. `outSum` is in cents; `receipt` is None until a
   * receipt is set (the source stores nil); `email` and `previousInvoiceId`
   * are None and `recurring` false while the source's map has no such key.
   */
  datatype Fields = Fields(
    login: string,
    invId: int,
    outSum: nat,
    desc: string,
    signatureValue: string,
    culture: string,
    incCurrLabel: string,
    isTest: bool,
    receipt: Option<string>,
    email: Option<string>,
    recurring: bool,
    previousInvoiceId: Option<int>)

  /** The fields a new payment starts with. */
  function InitialFields(login: string, testMode: bool): Fields {
    Fields(login, 0, 0, "", "", CultureRu, "", testMode, None, None, false, None)
  }

  /** `%v` of a data value. */
  function ShowValue(v: Value): string {
    match v
    case Str(s) => s
    case Int(i) => IntToDec(i)
    case Amount(c) => ShortAmount(c)
    case Flag(b) => if b then "true" else "false"
    case Nil => "<nil>"
  }

  /** The ten keys every payment's `data` map holds, with their values. */
  function StandardEntries(d: Fields): map<string, Value> {
    map[
      "MerchantLogin" := Str(d.login),
      "InvId" := Int(d.invId),
      "OutSum" := Amount(d.outSum),
      "Desc" := Str(d.desc),
      "SignatureValue" := Str(d.signatureValue),
      "Encoding" := Str("utf-8"),
      "Culture" := Str(d.culture),
      "IncCurrLabel" := Str(d.incCurrLabel),
      "IsTest" := Flag(d.isTest),
      "Receipt" := if d.receipt.Some? then Str(d.receipt.value) else Nil]
  }

  /** The keys a setter adds to the `data` map only once it is called. */
  function OptionalEntries(d: Fields): map<string, Value> {
    EmailEntry(d) + RecurringEntry(d) + PreviousInvoiceEntry(d)
  }

  function EmailEntry(d: Fields): map<string, Value> {
    if d.email.Some? then map["Email" := Str(d.email.value)] else map[]
  }

  function RecurringEntry(d: Fields): map<string, Value> {
    if d.recurring then map["Recurring" := Flag(true)] else map[]
  }

  function PreviousInvoiceEntry(d: Fields): map<string, Value> {
    if d.previousInvoiceId.Some? then map["PreviousInvoiceID" := Int(d.previousInvoiceId.value)] else map[]
  }

  /** The source's `data` map for these fields. */
  function DataMap(d: Fields): map<string, Value> {
    OptionalEntries(d) + StandardEntries(d)
  }

  /** The `data` map never holds a custom-parameter key: all its keys start with a capital letter. */
  lemma DataMapHasNoCustomKeys(d: Fields)
    ensures forall k :: k in DataMap(d) ==> !HasPrefix(k, CustomPrefix)
  {
    var m := DataMap(d);
    forall k | k in m
      ensures |k| > 0 && 'A' <= k[0] <= 'Z'
    {
      assert k in OptionalEntries(d) || k in StandardEntries(d);
    }
    CapitalisedKeysNotCustom(m);
  }

  /** A setter of a standard field writes that one key of the `data` map. */
  lemma StandardWrite(d: Fields, d': Fields, k: string, v: Value)
    requires OptionalEntries(d') == OptionalEntries(d)
    requires StandardEntries(d') == StandardEntries(d)[k := v]
    ensures DataMap(d') == DataMap(d)[k := v]
  {
    UnionUpdate(OptionalEntries(d), StandardEntries(d), k, v);
  }

  /** A setter of an optional field adds or overwrites that one key of the `data` map. */
  lemma OptionalWrite(d: Fields, d': Fields, k: string, v: Value)
    requires StandardEntries(d') == StandardEntries(d) && k !in StandardEntries(d)
    requires OptionalEntries(d') == OptionalEntries(d)[k := v]
    ensures DataMap(d') == DataMap(d)[k := v]
  {
    UnionUpdateLeft(OptionalEntries(d), StandardEntries(d), k, v);
  }

  /** Writing key `k` into a right-biased union whose right map lacks `k`. */
  lemma UnionUpdateLeft<V>(m1: map<string, V>, m2: map<string, V>, k: string, v: V)
    requires k !in m2
    ensures (m1 + m2)[k := v] == m1[k := v] + m2
  {
  }

  /** `SetEmail` writes the `Email` key. */
  lemma EmailWrite(d: Fields, email: string)
    ensures DataMap(d.(email := Some(email))) == DataMap(d)["Email" := Str(email)]
  {
    var d', k, v := d.(email := Some(email)), "Email", Str(email);
    var e, r, p := EmailEntry(d), RecurringEntry(d), PreviousInvoiceEntry(d);
    assert EmailEntry(d') == e[k := v];
    assert k !in r && k !in p;
    UnionUpdateLeft(e, r, k, v);
    UnionUpdateLeft(e + r, p, k, v);
    assert k !in StandardEntries(d);
    OptionalWrite(d, d', k, v);
  }

  /** `SetRecurring` writes the `Recurring` key. */
  lemma RecurringWrite(d: Fields)
    ensures DataMap(d.(recurring := true)) == DataMap(d)["Recurring" := Flag(true)]
  {
    var d', k, v := d.(recurring := true), "Recurring", Flag(true);
    var e, r, p := EmailEntry(d), RecurringEntry(d), PreviousInvoiceEntry(d);
    assert RecurringEntry(d') == r[k := v];
    assert k !in p;
    UnionUpdate(e, r, k, v);
    UnionUpdateLeft(e + r, p, k, v);
    assert k !in StandardEntries(d);
    OptionalWrite(d, d', k, v);
  }

  /** `SetPreviousInvoiceId` writes the `PreviousInvoiceID` key. */
  lemma PreviousInvoiceWrite(d: Fields, id: int)
    ensures DataMap(d.(previousInvoiceId := Some(id))) == DataMap(d)["PreviousInvoiceID" := Int(id)]
  {
    var d', k, v := d.(previousInvoiceId := Some(id)), "PreviousInvoiceID", Int(id);
    var e, r, p := EmailEntry(d), RecurringEntry(d), PreviousInvoiceEntry(d);
    assert PreviousInvoiceEntry(d') == p[k := v];
    UnionUpdate(e + r, p, k, v);
    assert k !in StandardEntries(d);
    OptionalWrite(d, d', k, v);
  }

  /** A key that starts with a capital letter is not a custom-parameter key. */
  lemma CapitalisedKeysNotCustom<V>(m: map<string, V>)
    requires forall k :: k in m ==> |k| > 0 && 'A' <= k[0] <= 'Z'
    ensures forall k :: k in m ==> !HasPrefix(k, CustomPrefix)
  {
    forall k | k in m
      ensures !HasPrefix(k, CustomPrefix)
    {
      assert CustomPrefix[0] == 's';
    }
  }

  /** A `key=value` segment of a signing string. */
  function Entry(k: string, v: string): string {
    k + "=" + v
  }

  /** A decimal amount `units / 10^exp`: the exact value a float64 argument stands for. */
  datatype Decimal = Decimal(units: int, exp: nat)

  /** Integer division truncating toward zero, as Go's float-to-int conversion does. */
  function TruncDiv(a: int, b: nat): int
    requires b > 0
  {
    if a >= 0 then a / b else -((-a) / b)
  }

  /** `int(sum*100)`: the amount in cents, truncated toward zero. */
  function TruncatedCents(x: Decimal): int {
    TruncDiv(x.units * 100, Pow10(x.exp))
  }

  /** Truncating an amount that already has two decimals changes nothing. */
  lemma TruncationIdempotent(x: Decimal)
    ensures TruncatedCents(Decimal(TruncatedCents(x), 2)) == TruncatedCents(x)
  {
    var c := TruncatedCents(x);
    assert Pow10(2) == 100;
    if c < 0 {
      assert -(c * 100) == (-c) * 100;
    }
  }

  /** Truncation drops digits and never rounds: 10.567 becomes 10.56. */
  lemma TruncationExample()
    ensures TruncatedCents(Decimal(10567, 3)) == 1056
  {
    assert Pow10(3) == 1000 by {
      assert Pow10(2) == 100;
    }
  }

  /** A non-negative amount truncates to the largest whole number of cents it holds. */
  lemma TruncationBounds(x: Decimal)
    requires x.units >= 0
    ensures var c := TruncatedCents(x);
      c >= 0 && c * Pow10(x.exp) <= x.units * 100 < (c + 1) * Pow10(x.exp)
  {
    DivBounds(x.units * 100, Pow10(x.exp));
  }

  lemma DivBounds(a: int, p: int)
    requires a >= 0 && p > 0
    ensures 0 <= a / p && (a / p) * p <= a < (a / p + 1) * p
  {
    var c, r := a / p, a % p;
    assert a == p * c + r;
    assert (c + 1) * p == c * p + p;
  }

  /** An amount survives truncation as a positive number exactly when it is at least one cent. */
  lemma TruncationPositiveIff(x: Decimal)
    ensures TruncatedCents(x) > 0 <==> x.units * 100 >= Pow10(x.exp)
  {
    TruncDivPositiveIff(x.units * 100, Pow10(x.exp));
  }

  lemma TruncDivPositiveIff(a: int, p: int)
    requires p > 0
    ensures TruncDiv(a, p) > 0 <==> a >= p
  {
    if a >= 0 {
      DivBounds(a, p);
      var c := a / p;
      if c >= 1 {
        assert c * p >= 1 * p;
      }
    } else {
      DivBounds(-a, p);
    }
  }

  /**
   * The entries `AddCustomParameters` writes for the keys `keys` of
   * `params`: each key with the custom prefix in front, its value unchanged.
   */
  function Prefixed(params: map<string, string>, keys: set<string>): (r: map<string, string>)
    requires keys <= params.Keys
    ensures forall k :: k in keys ==> CustomPrefix + k in r && r[CustomPrefix + k] == params[k]
    ensures forall j :: j in r ==> HasPrefix(j, CustomPrefix) && j[|CustomPrefix|..] in keys && r[j] == params[j[|CustomPrefix|..]]
  {
    forall a, b | CustomPrefix + a == CustomPrefix + b
      ensures a == b
    {
      assert a == (CustomPrefix + a)[|CustomPrefix|..];
    }
    var r := map k | k in keys :: CustomPrefix + k := params[k];
    forall j | j in r
      ensures HasPrefix(j, CustomPrefix) && j[|CustomPrefix|..] in keys && r[j] == params[j[|CustomPrefix|..]]
    {
      var k :| k in keys && j == CustomPrefix + k;
      assert j[|CustomPrefix|..] == k;
    }
    r
  }

  /** Writing one more prefixed entry. */
  lemma PrefixedStep(params: map<string, string>, keys: set<string>, k: string)
    requires keys <= params.Keys && k in params && k !in keys
    ensures Prefixed(params, keys + {k}) == Prefixed(params, keys)[CustomPrefix + k := params[k]]
  {
    var before, after := Prefixed(params, keys), Prefixed(params, keys + {k});
    forall j
      ensures j in after <==> j in before || j == CustomPrefix + k
    {
      if j in after {
        assert j[|CustomPrefix|..] in keys + {k};
        assert j == CustomPrefix + j[|CustomPrefix|..];
      }
    }
  }

  /**
   * What `AddCustomParameters` leaves: every given parameter under its
   * prefixed key, every other entry as it was, and nothing else.
   */
  lemma AddedParameters(before: map<string, string>, params: map<string, string>)
    ensures var after := before + Prefixed(params, params.Keys);
      && (forall k :: k in params ==> CustomPrefix + k in after && after[CustomPrefix + k] == params[k])
      && (forall j :: j in before && !(HasPrefix(j, CustomPrefix) && j[|CustomPrefix|..] in params) ==>
            j in after && after[j] == before[j])
      && (forall j :: j in after ==> j in before || (HasPrefix(j, CustomPrefix) && j[|CustomPrefix|..] in params))
  {
  }

  /** Overwriting one entry of a right-biased union overwrites it in the right map. */
  lemma UnionUpdate<V>(m1: map<string, V>, m2: map<string, V>, k: string, v: V)
    ensures (m1 + m2)[k := v] == m1 + m2[k := v]
  {
  }

  /** The value under `k`, if any: a Go map index with the `, ok` form. */
  function Lookup<V>(m: map<string, V>, k: string): (r: Option<V>)
    ensures r.Some? <==> k in m
    ensures r.Some? ==> r.value == m[k]
  {
    if k in m then Some(m[k]) else None
  }

  /** `mergeMaps`: both maps copied into one, the second map's entries winning. */
  function MergeMaps(m1: map<string, Value>, m2: map<string, Value>): (r: map<string, Value>)
    ensures r.Keys == m1.Keys + m2.Keys
    ensures forall k :: k in m2 ==> r[k] == m2[k]
    ensures forall k :: k in m1 && k !in m2 ==> r[k] == m1[k]
  {
    map k | k in m1.Keys + m2.Keys :: if k in m2 then m2[k] else m1[k]
  }

  /** `convertMapStringToInterface`: the same entries, as `interface{}` values. */
  function ConvertMap(m: map<string, string>): (r: map<string, Value>)
    ensures r.Keys == m.Keys
    ensures forall k :: k in m ==> r[k] == Str(m[k]) && ShowValue(r[k]) == m[k]
  {
    map k | k in m :: Str(m[k])
  }
}
