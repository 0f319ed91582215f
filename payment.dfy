/**
 * The `Payment` object: one outgoing payment being configured, signed and
 * turned into a link, and the checker of the gateway's notifications.
 */
module Robokassa {
  import opened Wrappers
  import opened Text
  import opened Lexicographic
  import opened Store
  import opened Signer
  import opened Verifier
  import opened Assembler

  class Payment {
    const login: string
    const paymentPassword: string
    const validationPassword: string
    const isTestMode: bool
    /** MD5 of a string's bytes, written as lower-case hexadecimal. */
    const md5Hex: string -> string
    /** `url.QueryEscape`. */
    const queryEscape: string -> string

    /** The standard fields; the source keeps them in an untyped map, which is `DataMap(data)`. */
    var data: Fields
    var customParams: map<string, string>
    /** The outcome of the last notification check. */
    var valid: bool

    /** The login in the fields is the payment's own, and every custom key carries the prefix. */
    ghost predicate Valid()
      reads this
    {
      && data.login == login
      && data.isTest == isTestMode
      && forall k :: k in customParams ==> HasPrefix(k, CustomPrefix)
    }

    /** `NewPayment`. */
    constructor (login: string, paymentPassword: string, validationPassword: string, testMode: bool,
                 md5Hex: string -> string, queryEscape: string -> string)
      ensures this.login == login && this.paymentPassword == paymentPassword
      ensures this.validationPassword == validationPassword && this.isTestMode == testMode
      ensures this.md5Hex == md5Hex && this.queryEscape == queryEscape
      ensures data == InitialFields(login, testMode)
      ensures customParams == map[] && !valid
      ensures Valid()
    {
      this.login := login;
      this.paymentPassword := paymentPassword;
      this.validationPassword := validationPassword;
      this.isTestMode := testMode;
      this.md5Hex := md5Hex;
      this.queryEscape := queryEscape;
      data := InitialFields(login, testMode);
      customParams := map[];
      valid := false;
    }

    method SetInvoiceId(id: int)
      requires Valid()
      modifies this`data
      ensures Valid()
      ensures data == old(data).(invId := id)
      ensures DataMap(data) == DataMap(old(data))["InvId" := Int(id)]
    {
      data := data.(invId := id);
      StandardWrite(old(data), data, "InvId", Int(id));
    }

    method SetPreviousInvoiceId(id: int)
      requires Valid()
      modifies this`data
      ensures Valid()
      ensures data == old(data).(previousInvoiceId := Some(id))
      ensures DataMap(data) == DataMap(old(data))["PreviousInvoiceID" := Int(id)]
    {
      data := data.(previousInvoiceId := Some(id));
      PreviousInvoiceWrite(old(data), id);
    }

    /** `SetSum`: the amount truncated to whole cents is stored only when it is positive. */
    method SetSum(x: Decimal) returns (err: Option<Error>)
      requires Valid()
      modifies this`data
      ensures Valid()
      ensures TruncatedCents(x) > 0 ==> err == None && data == old(data).(outSum := TruncatedCents(x))
      ensures TruncatedCents(x) > 0 ==> DataMap(data) == DataMap(old(data))["OutSum" := Amount(TruncatedCents(x))]
      ensures TruncatedCents(x) <= 0 ==> err == Some(InvalidSum) && data == old(data)
    {
      var cents := TruncatedCents(x);
      if cents > 0 {
        data := data.(outSum := cents);
        StandardWrite(old(data), data, "OutSum", Amount(cents));
        err := None;
      } else {
        err := Some(InvalidSum);
      }
    }

    method SetDescription(description: string)
      requires Valid()
      modifies this`data
      ensures Valid()
      ensures data == old(data).(desc := description)
      ensures DataMap(data) == DataMap(old(data))["Desc" := Str(description)]
    {
      data := data.(desc := description);
      StandardWrite(old(data), data, "Desc", Str(description));
    }

    method SetCulture(culture: string)
      requires Valid()
      modifies this`data
      ensures Valid()
      ensures data == old(data).(culture := culture)
      ensures DataMap(data) == DataMap(old(data))["Culture" := Str(culture)]
    {
      data := data.(culture := culture);
      StandardWrite(old(data), data, "Culture", Str(culture));
    }

    method SetCurrencyLabel(currencyLabel: string)
      requires Valid()
      modifies this`data
      ensures Valid()
      ensures data == old(data).(incCurrLabel := currencyLabel)
      ensures DataMap(data) == DataMap(old(data))["IncCurrLabel" := Str(currencyLabel)]
    {
      data := data.(incCurrLabel := currencyLabel);
      StandardWrite(old(data), data, "IncCurrLabel", Str(currencyLabel));
    }

    method SetEmail(email: string)
      requires Valid()
      modifies this`data
      ensures Valid()
      ensures data == old(data).(email := Some(email))
      ensures DataMap(data) == DataMap(old(data))["Email" := Str(email)]
    {
      data := data.(email := Some(email));
      EmailWrite(old(data), email);
    }

    /** `SetReceipt`, given the receipt already marshalled to JSON text: stores its query-escaped form. */
    method SetReceipt(receiptJson: string)
      requires Valid()
      modifies this`data
      ensures Valid()
      ensures data == old(data).(receipt := Some(queryEscape(receiptJson)))
      ensures DataMap(data) == DataMap(old(data))["Receipt" := Str(queryEscape(receiptJson))]
    {
      data := data.(receipt := Some(queryEscape(receiptJson)));
      StandardWrite(old(data), data, "Receipt", Str(queryEscape(receiptJson)));
    }

    method SetRecurring()
      requires Valid()
      modifies this`data
      ensures Valid()
      ensures data == old(data).(recurring := true)
      ensures DataMap(data) == DataMap(old(data))["Recurring" := Flag(true)]
    {
      data := data.(recurring := true);
      RecurringWrite(old(data));
    }

    /**
     * `AddCustomParameters`: a missing map is an error and changes nothing;
     * otherwise every parameter is written under its prefixed key, later
     * writes replacing earlier ones.
     */
    method AddCustomParameters(params: Option<map<string, string>>) returns (err: Option<Error>)
      requires Valid()
      modifies this`customParams
      ensures Valid()
      ensures params.None? ==> err == Some(InvalidParam) && customParams == old(customParams)
      ensures params.Some? ==> err == None && customParams == old(customParams) + Prefixed(params.value, params.value.Keys)
    {
      if params.None? {
        return Some(InvalidParam);
      }
      var ps := params.value;
      var rest := ps.Keys;
      assert ps.Keys - rest == {};
      while rest != {}
        invariant rest <= ps.Keys
        invariant customParams == old(customParams) + Prefixed(ps, ps.Keys - rest)
        invariant Valid()
        decreases rest
      {
        var k :| k in rest;
        PrefixedStep(ps, ps.Keys - rest, k);
        UnionUpdate(old(customParams), Prefixed(ps, ps.Keys - rest), CustomPrefix + k, ps[k]);
        assert HasPrefix(CustomPrefix + k, CustomPrefix);
        customParams := customParams[CustomPrefix + k := ps[k]];
        assert (ps.Keys - rest) + {k} == ps.Keys - (rest - {k});
        rest := rest - {k};
      }
      assert ps.Keys - rest == ps.Keys;
      return None;
    }

    /**
     * `getSignValue`: the four checks in order, then the digest of the
     * signing string; the login in the fields is the payment's own.
     */
    method SignValue() returns (r: Result<string, Error>)
      requires Valid()
      ensures r == Sign(data.(login := login), customParams, paymentPassword, md5Hex)
    {
      if data.outSum <= 0 {
        return Failure(InvalidSum);
      }
      if data.desc == "" {
        return Failure(EmptyDescription);
      }
      if data.invId <= 0 {
        return Failure(InvalidInvoiceId);
      }
      if data.receipt.None? || data.receipt.value == "" {
        return Failure(EmptyReceipt);
      }
      SignWhenChecksPass(data, customParams, paymentPassword, md5Hex);
      var suffix := CustomSuffix(customParams);
      var signature := SignatureHead(data, paymentPassword) + suffix;
      r := Success(md5Hex(signature));
    }

    /**
     * `GetPaymentUrl`: signs and stores the signature first, so a signing
     * failure wins over an unknown mode; then builds the link for the mode.
     */
    method GetPaymentUrl(mode: string) returns (r: Result<string, Error>)
      requires Valid()
      modifies this`data
      ensures Valid()
      ensures var s := Sign(old(data), customParams, paymentPassword, md5Hex);
        if s.Failure? then r == Failure(s.error) && data == old(data)
        else data == old(data).(signatureValue := s.value) && r == PaymentUrl(data, customParams, mode, queryEscape)
    {
      var sig := SignValue();
      if sig.Failure? {
        return Failure(sig.error);
      }
      data := data.(signatureValue := sig.value);
      ghost var query := Query(data, customParams, queryEscape);
      if mode == "base" {
        var q := EncodedQuery();
        r := Success(BaseUrl + q);
      } else if mode == "init_recurring" {
        var q := EncodedQuery();
        r := Success(BaseInitRecurringUrl + q);
      } else if mode == "recurring" {
        r := Success(BaseRecurringUrl);
      } else {
        r := Failure(InvalidParam);
      }
      assert r == PaymentLink(mode, query);
    }

    /** The query part of a link: the standard fields, `&`, the custom parameters. */
    method EncodedQuery() returns (query: string)
      ensures query == Query(data, customParams, queryEscape)
    {
      var standard := Encode(StandardValues(data), queryEscape);
      var custom := Encode(customParams, queryEscape);
      query := standard + "&" + custom;
    }

    /** `GetPaymentRecurringParams`: signs, stores the signature, and returns the fields merged with the custom parameters. */
    method GetPaymentRecurringParams() returns (r: Result<map<string, Value>, Error>)
      requires Valid()
      modifies this`data
      ensures Valid()
      ensures var s := Sign(old(data), customParams, paymentPassword, md5Hex);
        if s.Failure? then r == Failure(s.error) && data == old(data)
        else data == old(data).(signatureValue := s.value) && r == Success(MergeMaps(DataMap(data), ConvertMap(customParams)))
    {
      var sig := SignValue();
      if sig.Failure? {
        return Failure(sig.error);
      }
      data := data.(signatureValue := sig.value);
      r := Success(MergeMaps(DataMap(data), ConvertMap(customParams)));
    }

    /**
     * `validate`: the digest of `OutSum:InvId:password` and the custom
     * entries, compared with `SignatureValue` up to case; the outcome is
     * remembered. Without a `SignatureValue` the check fails and the
     * remembered outcome stays.
     */
    method Validate(source: map<string, string>, passwordType: string) returns (r: Result<bool, Error>)
      modifies this`valid
      ensures r == Verify(source, PasswordFor(passwordType, paymentPassword, validationPassword), md5Hex)
      ensures valid == if r.Success? then r.value else old(valid)
    {
      var password := paymentPassword;
      if passwordType == "validation" {
        password := validationPassword;
      }
      var suffix := CustomParamsString(source);
      var signature := FieldText(source, "OutSum") + ":" + FieldText(source, "InvId") + ":" + password + suffix;
      if "SignatureValue" !in source {
        return Failure(MissingSignatureValue);
      }
      valid := EqualFold(md5Hex(signature), source["SignatureValue"]);
      r := Success(valid);
    }

    /** `ValidateResult`: a server-to-server notification, checked with the validation password. */
    method ValidateResult(source: map<string, string>) returns (r: Result<bool, Error>)
      modifies this`valid
      ensures r == Verify(source, validationPassword, md5Hex)
      ensures valid == if r.Success? then r.value else old(valid)
    {
      r := Validate(source, "validation");
    }

    /** `ValidateSuccess`: the customer's redirect back, checked with the payment password. */
    method ValidateSuccess(source: map<string, string>) returns (r: Result<bool, Error>)
      modifies this`valid
      ensures r == Verify(source, paymentPassword, md5Hex)
      ensures valid == if r.Success? then r.value else old(valid)
    {
      r := Validate(source, "payment");
    }

    /** `IsValid`: the outcome of the last check that reached a verdict, false before any. */
    function IsValid(): (b: bool)
      reads this
      ensures b <==> valid
    {
      valid
    }

    /** `GetSuccessAnswer`: `OK`, the invoice number in decimal, and a newline. */
    function GetSuccessAnswer(): (r: string)
      reads this
      ensures |r| >= 4 && r[..2] == "OK" && r[|r| - 1] == '\n'
      ensures r[2..|r| - 1] == IntToDec(data.invId)
      ensures CanonicalDec(r[2..|r| - 1]) && ParseInt(r[2..|r| - 1]) == Some(data.invId)
    {
      var id := IntToDec(data.invId);
      IntToDecRoundTrip(data.invId);
      IntToDecCanonical(data.invId);
      var r := "OK" + id + "\n";
      assert r[2..|r| - 1] == id;
      r
    }

    /**
     * `GetCustomParam`: looks the prefixed name up among the standard
     * fields, where no custom parameter is ever stored, so it finds nothing.
     */
    function GetCustomParam(name: string): (r: Option<Value>)
      reads this
      ensures r == None
    {
      var key := CustomPrefix + name;
      DataMapHasNoCustomKeys(data);
      assert HasPrefix(key, CustomPrefix);
      Lookup(DataMap(data), key)
    }

    /** `GetSum`, in cents. */
    function GetSum(): (r: nat)
      reads this
      ensures "OutSum" in DataMap(data) && DataMap(data)["OutSum"] == Amount(r)
    {
      data.outSum
    }

    function GetDescription(): (r: string)
      reads this
      ensures "Desc" in DataMap(data) && DataMap(data)["Desc"] == Str(r)
    {
      data.desc
    }

    function GetCulture(): (r: string)
      reads this
      ensures "Culture" in DataMap(data) && DataMap(data)["Culture"] == Str(r)
    {
      data.culture
    }

    function GetCurrencyLabel(): (r: string)
      reads this
      ensures "IncCurrLabel" in DataMap(data) && DataMap(data)["IncCurrLabel"] == Str(r)
    {
      data.incCurrLabel
    }
  }
}
