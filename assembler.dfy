/**
 * Assembly of the outbound payment link (`GetPaymentUrl`): the three
 * endpoints, the query-string encoding of the standard fields and of the
 * custom parameters, and the dispatch on the payment mode.
 */
module Assembler {
  import opened Wrappers
  import opened Text
  import opened Lexicographic
  import opened Store

  const BaseUrl: string := "https://auth.robokassa.ru/Merchant/Index.aspx?"
  /** The same address as BaseUrl: the source gives both modes one endpoint. */
  const BaseInitRecurringUrl: string := "https://auth.robokassa.ru/Merchant/Index.aspx?"
  const BaseRecurringUrl: string := "https://auth.robokassa.ru/Merchant/Recurring"

  /** The standard fields as the `url.Values` the source fills: every value printed with `%v`. */
  function StandardValues(d: Fields): map<string, string> {
    Shown(DataMap(d))
  }

  /** Every value of an untyped map printed with `%v`. */
  function Shown(m: map<string, Value>): (r: map<string, string>)
    ensures r.Keys == m.Keys
    ensures forall k :: k in m ==> r[k] == ShowValue(m[k])
  {
    map k | k in m :: ShowValue(m[k])
  }

  /** What the query string carries for the fields the signature depends on. */
  lemma StandardValuesCarry(d: Fields)
    ensures var m := StandardValues(d);
      && m["SignatureValue"] == d.signatureValue
      && m["OutSum"] == ShortAmount(d.outSum)
      && m["InvId"] == IntToDec(d.invId)
      && m["MerchantLogin"] == d.login
      && m["Receipt"] == (if d.receipt.Some? then d.receipt.value else "<nil>")
      && m["Encoding"] == "utf-8"
  {
    CarriesSignature(d);
    CarriesAmount(d);
    CarriesInvoice(d);
    CarriesLogin(d);
    CarriesReceipt(d);
    CarriesEncoding(d);
  }

  lemma CarriesSignature(d: Fields)
    ensures "SignatureValue" in StandardValues(d) && StandardValues(d)["SignatureValue"] == d.signatureValue
  {
    assert StandardEntries(d)["SignatureValue"] == Str(d.signatureValue);
  }

  lemma CarriesAmount(d: Fields)
    ensures "OutSum" in StandardValues(d) && StandardValues(d)["OutSum"] == ShortAmount(d.outSum)
  {
    assert StandardEntries(d)["OutSum"] == Amount(d.outSum);
  }

  lemma CarriesInvoice(d: Fields)
    ensures "InvId" in StandardValues(d) && StandardValues(d)["InvId"] == IntToDec(d.invId)
  {
    assert StandardEntries(d)["InvId"] == Int(d.invId);
  }

  lemma CarriesLogin(d: Fields)
    ensures "MerchantLogin" in StandardValues(d) && StandardValues(d)["MerchantLogin"] == d.login
  {
    assert StandardEntries(d)["MerchantLogin"] == Str(d.login);
  }

  lemma CarriesReceipt(d: Fields)
    ensures "Receipt" in StandardValues(d)
    ensures StandardValues(d)["Receipt"] == (if d.receipt.Some? then d.receipt.value else "<nil>")
  {
    assert StandardEntries(d)["Receipt"] == if d.receipt.Some? then Str(d.receipt.value) else Nil;
  }

  lemma CarriesEncoding(d: Fields)
    ensures "Encoding" in StandardValues(d) && StandardValues(d)["Encoding"] == "utf-8"
  {
    assert StandardEntries(d)["Encoding"] == Str("utf-8");
  }

  /** The `key=value` pairs of `m` for the keys `ks`, both sides escaped. */
  function EncodedPairs(ks: seq<string>, m: map<string, string>, escape: string -> string): (ps: seq<string>)
    requires forall i :: 0 <= i < |ks| ==> ks[i] in m
    ensures |ps| == |ks|
    ensures forall i :: 0 <= i < |ks| ==> ps[i] == escape(ks[i]) + "=" + escape(m[ks[i]])
  {
    seq(|ks|, i requires 0 <= i < |ks| => escape(ks[i]) + "=" + escape(m[ks[i]]))
  }

  /** `url.Values.Encode` for one value per key: the escaped pairs in ascending key order, joined by `&`. */
  ghost function EncodeValues(m: map<string, string>, escape: string -> string): string {
    Join(EncodedPairs(KeysAscending(m), m, escape), "&")
  }

  /** `url.Values.Encode`: walk the sorted keys, writing `&` whenever the buffer is not empty. */
  method Encode(m: map<string, string>, escape: string -> string) returns (s: string)
    ensures s == EncodeValues(m, escape)
  {
    var keys := SortedKeys(m);
    ghost var pairs := EncodedPairs(keys, m, escape);
    s := "";
    for i := 0 to |keys|
      invariant s == Join(pairs[..i], "&")
      invariant |s| > 0 <==> i > 0
    {
      var pair := escape(keys[i]) + "=" + escape(m[keys[i]]);
      JoinStep(pairs, i, s, "&");
      if |s| > 0 {
        s := s + "&" + pair;
      } else {
        s := pair;
      }
    }
    assert pairs[..|keys|] == pairs;
  }

  /** Every entry of the map is one of the `&`-separated pairs of its encoding. */
  lemma EncodedPairPresent(m: map<string, string>, escape: string -> string, k: string)
    requires k in m
    ensures escape(k) + "=" + escape(m[k]) in EncodedPairs(KeysAscending(m), m, escape)
  {
    var ks := KeysAscending(m);
    assert k in multiset(ks);
    var i :| 0 <= i < |ks| && ks[i] == k;
    assert EncodedPairs(ks, m, escape)[i] == escape(k) + "=" + escape(m[k]);
  }

  /** An empty map encodes to nothing. */
  lemma EncodeEmpty(escape: string -> string)
    ensures EncodeValues(map[], escape) == ""
  {
    var ks := KeysAscending<string>(map[]);
    assert |ks| == |multiset(ks)| == 0;
  }

  /** The query part of a link: the encoded standard fields, `&`, the encoded custom parameters. */
  ghost function Query(d: Fields, custom: map<string, string>, escape: string -> string): string {
    EncodeValues(StandardValues(d), escape) + "&" + EncodeValues(custom, escape)
  }

  /** The dispatch on the mode: an endpoint followed by the query, the bare recurring endpoint, or an error. */
  function PaymentLink(mode: string, query: string): Result<string, Error> {
    if mode == "base" then Success(BaseUrl + query)
    else if mode == "init_recurring" then Success(BaseInitRecurringUrl + query)
    else if mode == "recurring" then Success(BaseRecurringUrl)
    else Failure(InvalidParam)
  }

  /** What `GetPaymentUrl` returns once the signature is stored in `d`. */
  ghost function PaymentUrl(d: Fields, custom: map<string, string>, mode: string, escape: string -> string): Result<string, Error> {
    PaymentLink(mode, Query(d, custom, escape))
  }

  /** The modes the link accepts, and the one error for every other mode. */
  lemma PaymentUrlModes(d: Fields, custom: map<string, string>, mode: string, escape: string -> string)
    ensures PaymentUrl(d, custom, mode, escape).Success? <==> mode in {"base", "init_recurring", "recurring"}
    ensures PaymentUrl(d, custom, mode, escape).Failure? ==> PaymentUrl(d, custom, mode, escape).error == InvalidParam
    ensures PaymentUrl(d, custom, "init_recurring", escape) == PaymentUrl(d, custom, "base", escape)
  {
  }

  /** Without custom parameters the "base" link still ends in the separator `&`. */
  lemma BaseUrlWithoutCustom(d: Fields, escape: string -> string)
    ensures PaymentUrl(d, map[], "base", escape) == Success(BaseUrl + (EncodeValues(StandardValues(d), escape) + "&"))
  {
    NoCustomQuery(EncodeValues(StandardValues(d), escape), escape);
  }

  lemma NoCustomQuery(std: string, escape: string -> string)
    ensures std + "&" + EncodeValues(map[], escape) == std + "&"
  {
    EncodeEmpty(escape);
  }

  /** The "base" link carries the stored signature as one of its pairs. */
  lemma BaseUrlCarriesSignature(d: Fields, escape: string -> string)
    ensures escape("SignatureValue") + "=" + escape(d.signatureValue)
      in EncodedPairs(KeysAscending(StandardValues(d)), StandardValues(d), escape)
  {
    StandardValuesCarry(d);
    EncodedPairPresent(StandardValues(d), escape, "SignatureValue");
  }
}
