/**
 * The canonical signer of outgoing payments (`getSignValue`): the checks it
 * makes before signing, and the exact string it hands to MD5.
 */
module Signer {
  import opened Wrappers
  import opened Text
  import opened Lexicographic
  import opened Store

  /** The first of the four checks that fails, in the order the source makes them; None when all pass. */
  function SignCheck(d: Fields): Option<Error> {
    if d.outSum <= 0 then Some(InvalidSum)
    else if d.desc == "" then Some(EmptyDescription)
    else if d.invId <= 0 then Some(InvalidInvoiceId)
    else if d.receipt.None? || d.receipt.value == "" then Some(EmptyReceipt)
    else None
  }

  /** `login:OutSum:InvId:Receipt:password`, the amount with exactly two decimals. */
  function SignatureHead(d: Fields, password: string): string
    requires d.receipt.Some?
  {
    d.login + ":" + Fixed2(d.outSum) + ":" + IntToDec(d.invId) + ":" + d.receipt.value + ":" + password
  }

  /** The `key=value` segments for the keys `ks`, in that order. */
  function Pairs(ks: seq<string>, m: map<string, string>): (ps: seq<string>)
    requires forall i :: 0 <= i < |ks| ==> ks[i] in m
    ensures |ps| == |ks| && forall i :: 0 <= i < |ks| ==> ps[i] == Entry(ks[i], m[ks[i]])
  {
    seq(|ks|, i requires 0 <= i < |ks| => Entry(ks[i], m[ks[i]]))
  }

  /** One `:key=value` segment per custom parameter, keys ascending. */
  ghost function SignerSuffix(custom: map<string, string>): string {
    Colons(Pairs(KeysAscending(custom), custom))
  }

  /** The string the outbound signature is the MD5 digest of. */
  ghost function SigningString(d: Fields, custom: map<string, string>, password: string): string
    requires d.receipt.Some?
  {
    SignatureHead(d, password) + SignerSuffix(custom)
  }

  /** What `getSignValue` produces: an error, or the digest of the signing string. */
  ghost function Sign(d: Fields, custom: map<string, string>, password: string, md5Hex: string -> string): Result<string, Error> {
    match SignCheck(d)
    case Some(e) => Failure(e)
    case None => Success(md5Hex(SigningString(d, custom, password)))
  }

  /** The loop of `getSignValue`: `:key=value` for each key of the sorted key list. */
  method CustomSuffix(custom: map<string, string>) returns (s: string)
    ensures s == SignerSuffix(custom)
  {
    s := "";
    if |custom| > 0 {
      var keys := SortedKeys(custom);
      ghost var segments := Pairs(keys, custom);
      for i := 0 to |keys|
        invariant s == Colons(segments[..i])
      {
        ColonsStep(segments, i);
        s := s + (":" + Entry(keys[i], custom[keys[i]]));
      }
      assert segments[..|keys|] == segments;
    } else {
      EmptySuffix(custom);
    }
  }

  /** An empty map has no segments. */
  lemma EmptySuffix(custom: map<string, string>)
    requires |custom| == 0
    ensures Colons(Pairs(KeysAscending(custom), custom)) == ""
  {
    var ks := KeysAscending(custom);
    assert |ks| == |multiset(ks)| == 0;
  }

  /** Once the checks pass, the signature is the digest of the head and the custom segments. */
  lemma SignWhenChecksPass(d: Fields, custom: map<string, string>, password: string, md5Hex: string -> string)
    requires SignCheck(d) == None
    ensures d.receipt.Some?
    ensures Sign(d, custom, password, md5Hex) == Success(md5Hex(SignatureHead(d, password) + SignerSuffix(custom)))
  {
  }

  /** Signing fails exactly when a check fails, and reports the first failing check. */
  lemma SignOutcome(d: Fields, custom: map<string, string>, password: string, md5Hex: string -> string)
    ensures d.outSum == 0 ==> Sign(d, custom, password, md5Hex) == Failure(InvalidSum)
    ensures d.outSum > 0 && d.desc == "" ==> Sign(d, custom, password, md5Hex) == Failure(EmptyDescription)
    ensures d.outSum > 0 && d.desc != "" && d.invId <= 0 ==> Sign(d, custom, password, md5Hex) == Failure(InvalidInvoiceId)
    ensures d.outSum > 0 && d.desc != "" && d.invId > 0 && (d.receipt.None? || d.receipt.value == "") ==>
      Sign(d, custom, password, md5Hex) == Failure(EmptyReceipt)
    ensures Sign(d, custom, password, md5Hex).Success? <==>
      d.outSum > 0 && d.desc != "" && d.invId > 0 && d.receipt.Some? && d.receipt.value != ""
  {
  }

  /** A payment that has only been constructed cannot be signed: its amount is zero. */
  lemma FreshPaymentCannotSign(login: string, testMode: bool, custom: map<string, string>, password: string, md5Hex: string -> string)
    ensures Sign(InitialFields(login, testMode), custom, password, md5Hex) == Failure(InvalidSum)
  {
  }

  /** Without custom parameters nothing follows the password. */
  lemma NoCustomNoSuffix(d: Fields, password: string)
    requires d.receipt.Some?
    ensures SigningString(d, map[], password) == SignatureHead(d, password)
  {
    var ks := KeysAscending<string>(map[]);
    assert |ks| == |multiset(ks)| == 0;
  }

  /** login shop1, 100.00, invoice 7, receipt r, password pw, no custom parameters. */
  lemma SigningExample(d: Fields)
    requires d.login == "shop1" && d.outSum == 10000 && d.invId == 7 && d.receipt == Some("r")
    ensures SigningString(d, map[], "pw") == "shop1:100.00:7:r:pw"
  {
    NoCustomNoSuffix(d, "pw");
    AmountExample();
    assert IntToDec(7) == "7";
  }

  /** 10000 cents are written `100.00`. */
  lemma AmountExample()
    ensures Fixed2(10000) == "100.00"
  {
    assert NatToDec(100) == "100" by {
      assert NatToDec(10) == "10";
    }
  }

  /**
   * The suffix does not depend on how the keys were enumerated: any
   * ascending arrangement of the keys gives the same string.
   */
  lemma SignerSuffixCanonical(ks: seq<string>, custom: map<string, string>)
    requires Sorted(ks) && multiset(ks) == multiset(custom.Keys)
    ensures forall i :: 0 <= i < |ks| ==> ks[i] in custom
    ensures Colons(Pairs(ks, custom)) == SignerSuffix(custom)
  {
    forall i | 0 <= i < |ks|
      ensures ks[i] in custom
    {
      assert ks[i] in multiset(ks);
    }
    SortedUnique(ks, KeysAscending(custom));
  }

  /**
   * The description's text, culture, currency label, test flag, e-mail,
   * recurrence, previous invoice id and the stored signature never enter the
   * signature; of the description only its emptiness is checked.
   */
  lemma SignIgnoresUnsignedFields(d1: Fields, d2: Fields, custom: map<string, string>, password: string, md5Hex: string -> string)
    requires d1.login == d2.login && d1.outSum == d2.outSum && d1.invId == d2.invId
    requires (d1.desc == "") == (d2.desc == "") && d1.receipt == d2.receipt
    ensures Sign(d1, custom, password, md5Hex) == Sign(d2, custom, password, md5Hex)
  {
  }

  /** The signing string split around its amount. */
  lemma AmountInSigningString(d: Fields, custom: map<string, string>, password: string)
    requires d.receipt.Some?
    ensures SigningString(d, custom, password) ==
      (d.login + ":") + Fixed2(d.outSum) + (":" + IntToDec(d.invId) + ":" + d.receipt.value + ":" + password + SignerSuffix(custom))
  {
    var x, id := d.login + ":" + Fixed2(d.outSum), IntToDec(d.invId);
    Regroup(x, ":", id, ":", d.receipt.value, ":");
    var t := ":" + id + ":" + d.receipt.value + ":";
    assert SignatureHead(d, password) == x + t + password;
    Regroup3(x, t, password, SignerSuffix(custom));
  }

  /** Two payments that differ only in their amounts have different signing strings. */
  lemma SigningStringSeparatesAmounts(d1: Fields, d2: Fields, custom: map<string, string>, password: string)
    requires d1.receipt.Some? && d1.outSum != d2.outSum
    requires d2 == d1.(outSum := d2.outSum)
    ensures SigningString(d1, custom, password) != SigningString(d2, custom, password)
  {
    Fixed2RoundTrip(d1.outSum);
    Fixed2RoundTrip(d2.outSum);
    var a1, a2 := Fixed2(d1.outSum), Fixed2(d2.outSum);
    assert a1 != a2;
    var tail := ":" + IntToDec(d1.invId) + ":" + d1.receipt.value + ":" + password + SignerSuffix(custom);
    AmountInSigningString(d1, custom, password);
    AmountInSigningString(d2, custom, password);
    MiddleDetermined(d1.login + ":", a1, a2, tail);
  }

  /** The signing string split around its invoice id. */
  lemma InvoiceInSigningString(d: Fields, custom: map<string, string>, password: string)
    requires d.receipt.Some?
    ensures SigningString(d, custom, password) ==
      (d.login + ":" + Fixed2(d.outSum) + ":") + IntToDec(d.invId) + (":" + d.receipt.value + ":" + password + SignerSuffix(custom))
  {
    var x := d.login + ":" + Fixed2(d.outSum) + ":" + IntToDec(d.invId);
    Regroup(x, ":", d.receipt.value, ":", password, SignerSuffix(custom));
  }

  /** Two payments that differ only in their invoice ids have different signing strings. */
  lemma SigningStringSeparatesInvoiceIds(d1: Fields, d2: Fields, custom: map<string, string>, password: string)
    requires d1.receipt.Some? && d1.invId != d2.invId
    requires d2 == d1.(invId := d2.invId)
    ensures SigningString(d1, custom, password) != SigningString(d2, custom, password)
  {
    var i1, i2 := IntToDec(d1.invId), IntToDec(d2.invId);
    if i1 == i2 {
      IntToDecInjective(d1.invId, d2.invId);
    }
    InvoiceInSigningString(d1, custom, password);
    InvoiceInSigningString(d2, custom, password);
    MiddleDetermined(d1.login + ":" + Fixed2(d1.outSum) + ":", i1, i2,
      ":" + d1.receipt.value + ":" + password + SignerSuffix(custom));
  }

  /** The signing string split around its receipt. */
  lemma ReceiptInSigningString(d: Fields, custom: map<string, string>, password: string)
    requires d.receipt.Some?
    ensures SigningString(d, custom, password) ==
      (d.login + ":" + Fixed2(d.outSum) + ":" + IntToDec(d.invId) + ":") + d.receipt.value + (":" + password + SignerSuffix(custom))
  {
    var x := d.login + ":" + Fixed2(d.outSum) + ":" + IntToDec(d.invId) + ":" + d.receipt.value;
    Regroup3(x, ":", password, SignerSuffix(custom));
  }

  /** Two payments that differ only in their receipts have different signing strings. */
  lemma SigningStringSeparatesReceipts(d1: Fields, d2: Fields, custom: map<string, string>, password: string)
    requires d1.receipt.Some? && d2.receipt.Some? && d1.receipt != d2.receipt
    requires d2 == d1.(receipt := d2.receipt)
    ensures SigningString(d1, custom, password) != SigningString(d2, custom, password)
  {
    ReceiptInSigningString(d1, custom, password);
    ReceiptInSigningString(d2, custom, password);
    MiddleDetermined(d1.login + ":" + Fixed2(d1.outSum) + ":" + IntToDec(d1.invId) + ":",
      d1.receipt.value, d2.receipt.value, ":" + password + SignerSuffix(custom));
  }

  /** Overwriting an existing parameter leaves the key order alone. */
  lemma KeysAscendingAfterOverwrite(custom: map<string, string>, k: string, v: string)
    requires k in custom
    ensures KeysAscending(custom[k := v]) == KeysAscending(custom)
  {
    assert custom[k := v].Keys == custom.Keys;
  }

  /** Overwriting the parameter at position `i` of the key order changes only the `i`-th segment. */
  lemma PairsAfterOverwrite(ks: seq<string>, custom: map<string, string>, v: string, i: int)
    requires multiset(ks) == multiset(custom.Keys) && 0 <= i < |ks|
    requires forall j :: 0 <= j < |ks| ==> ks[j] in custom
    ensures var ps, qs := Pairs(ks, custom), Pairs(ks, custom[ks[i] := v]);
      ps[..i] == qs[..i] && ps[i + 1..] == qs[i + 1..] && qs[i] == Entry(ks[i], v)
  {
    var ps, qs := Pairs(ks, custom), Pairs(ks, custom[ks[i] := v]);
    forall j | 0 <= j < |ks| && j != i
      ensures ps[j] == qs[j]
    {
      if j < i { EnumerationDistinct(ks, custom.Keys, j, i); } else { EnumerationDistinct(ks, custom.Keys, i, j); }
    }
    assert ps[..i] == qs[..i];
    assert ps[i + 1..] == qs[i + 1..];
  }

  /** Changing the value of one custom parameter changes the custom segments. */
  lemma SignerSuffixSeparatesCustomValues(custom: map<string, string>, k: string, v: string)
    requires k in custom && v != custom[k]
    ensures SignerSuffix(custom) != SignerSuffix(custom[k := v])
  {
    var ks := KeysAscending(custom);
    KeysAscendingAfterOverwrite(custom, k, v);
    assert k in multiset(ks);
    var i :| 0 <= i < |ks| && ks[i] == k;
    PairsAfterOverwrite(ks, custom, v, i);
    MiddleDetermined(k + "=", custom[k], v, "");
    ColonsDetermineMiddle(Pairs(ks, custom), Pairs(ks, custom[k := v]), i);
  }

  /** Changing the value of one custom parameter changes the signing string. */
  lemma SigningStringSeparatesCustomValues(d: Fields, custom: map<string, string>, password: string, k: string, v: string)
    requires d.receipt.Some? && k in custom && v != custom[k]
    ensures SigningString(d, custom, password) != SigningString(d, custom[k := v], password)
  {
    SignerSuffixSeparatesCustomValues(custom, k, v);
    RestDetermined(SignatureHead(d, password), SignerSuffix(custom), SignerSuffix(custom[k := v]));
  }
}
