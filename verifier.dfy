/**
 * The callback verifier (`validate` and `getCustomParamsString`): the string
 * an inbound notification's signature is checked against, and the outcome
 * of the check.
 */
module Verifier {
  import opened Wrappers
  import opened Text
  import opened Lexicographic
  import opened Store
  import opened Signer

  /** The inbound keys that carry the custom-parameter prefix. */
  function CustomKeys(source: map<string, string>): set<string> {
    set k | k in source && HasPrefix(k, CustomPrefix)
  }

  /** The `key=value` entries of `m` for the keys in `keys`, as a multiset: two keys may give the same entry. */
  ghost function EntryBag(m: map<string, string>, keys: set<string>): multiset<string>
    requires keys <= m.Keys
  {
    if keys == {} then multiset{}
    else
      var k :| k in keys;
      EntryBag(m, keys - {k}) + multiset{Entry(k, m[k])}
  }

  /** The entry bag does not depend on which key is taken out first. */
  lemma {:induction false} EntryBagRemove(m: map<string, string>, keys: set<string>, k: string)
    requires keys <= m.Keys && k in keys
    ensures EntryBag(m, keys) == EntryBag(m, keys - {k}) + multiset{Entry(k, m[k])}
    decreases keys
  {
    var k0 :| k0 in keys && EntryBag(m, keys) == EntryBag(m, keys - {k0}) + multiset{Entry(k0, m[k0])};
    if k0 != k {
      EntryBagRemove(m, keys - {k0}, k);
      EntryBagRemove(m, keys - {k}, k0);
      assert keys - {k0} - {k} == keys - {k} - {k0};
    }
  }

  /** The entry bag only looks at the entries of its keys. */
  lemma {:induction false} EntryBagLocal(m1: map<string, string>, m2: map<string, string>, keys: set<string>)
    requires keys <= m1.Keys && keys <= m2.Keys
    requires forall k :: k in keys ==> m1[k] == m2[k]
    ensures EntryBag(m1, keys) == EntryBag(m2, keys)
    decreases keys
  {
    if keys != {} {
      var k :| k in keys;
      EntryBagRemove(m1, keys, k);
      EntryBagRemove(m2, keys, k);
      EntryBagLocal(m1, m2, keys - {k});
    }
  }

  /** `getCustomParamsString`: a colon before each custom entry, entries in ascending order; empty without custom fields. */
  ghost function VerifierSuffix(source: map<string, string>): string {
    Colons(SortedOf(EntryBag(source, CustomKeys(source))))
  }

  /** `%v` of an inbound field: its text, or `<nil>` when the field is absent. */
  function FieldText(source: map<string, string>, key: string): string {
    if key in source then source[key] else "<nil>"
  }

  /** The string an inbound signature is the MD5 digest of: `OutSum:InvId:password` and the custom entries. */
  ghost function VerifierString(source: map<string, string>, password: string): string {
    FieldText(source, "OutSum") + ":" + FieldText(source, "InvId") + ":" + password + VerifierSuffix(source)
  }

  /** The trust tier's secret: the validation password for "validation", the payment password otherwise. */
  function PasswordFor(passwordType: string, paymentPassword: string, validationPassword: string): string {
    if passwordType == "validation" then validationPassword else paymentPassword
  }

  /**
   * What `validate` decides: whether the digest matches the supplied
   * `SignatureValue` up to case; without that field the source's type
   * assertion panics, which is MissingSignatureValue here.
   */
  ghost function Verify(source: map<string, string>, password: string, md5Hex: string -> string): Result<bool, Error> {
    if "SignatureValue" !in source then Failure(MissingSignatureValue)
    else Success(EqualFold(md5Hex(VerifierString(source, password)), source["SignatureValue"]))
  }

  /** One step of the collecting loop: taking key `k` out of `rest` moves at most its entry to the output. */
  lemma CollectStep(source: map<string, string>, rest: set<string>, k: string)
    requires rest <= source.Keys && k in rest
    ensures HasPrefix(k, CustomPrefix) ==>
      EntryBag(source, CustomKeys(source) * rest)
        == EntryBag(source, CustomKeys(source) * (rest - {k})) + multiset{Entry(k, source[k])}
    ensures !HasPrefix(k, CustomPrefix) ==>
      EntryBag(source, CustomKeys(source) * rest) == EntryBag(source, CustomKeys(source) * (rest - {k}))
  {
    var before := CustomKeys(source) * rest;
    if HasPrefix(k, CustomPrefix) {
      assert before - {k} == CustomKeys(source) * (rest - {k});
      EntryBagRemove(source, before, k);
    } else {
      assert before == CustomKeys(source) * (rest - {k});
    }
  }

  /** The collecting loop's invariant survives taking one key out of `rest`. */
  lemma CollectInvariant(source: map<string, string>, rest: set<string>, k: string, before: seq<string>, after: seq<string>)
    requires rest <= source.Keys && k in rest
    requires multiset(before) + EntryBag(source, CustomKeys(source) * rest) == EntryBag(source, CustomKeys(source))
    requires after == if HasPrefix(k, CustomPrefix) then before + [Entry(k, source[k])] else before
    ensures multiset(after) + EntryBag(source, CustomKeys(source) * (rest - {k})) == EntryBag(source, CustomKeys(source))
  {
    CollectStep(source, rest, k);
    if HasPrefix(k, CustomPrefix) {
      assert multiset(after) == multiset(before) + multiset{Entry(k, source[k])};
    }
  }

  /** The loop of `getCustomParamsString`: the custom entries, in whatever order the map yields them. */
  method CollectCustomEntries(source: map<string, string>) returns (params: seq<string>)
    ensures multiset(params) == EntryBag(source, CustomKeys(source))
  {
    params := [];
    var rest := source.Keys;
    assert CustomKeys(source) * rest == CustomKeys(source);
    while rest != {}
      invariant rest <= source.Keys
      invariant multiset(params) + EntryBag(source, CustomKeys(source) * rest) == EntryBag(source, CustomKeys(source))
      decreases rest
    {
      var k :| k in rest;
      ghost var before := params;
      if HasPrefix(k, CustomPrefix) {
        params := params + [Entry(k, source[k])];
      }
      CollectInvariant(source, rest, k, before, params);
      rest := rest - {k};
    }
    assert CustomKeys(source) * rest == {};
  }

  /** `getCustomParamsString`: collect the custom entries, sort them, join them. */
  method CustomParamsString(source: map<string, string>) returns (s: string)
    ensures s == VerifierSuffix(source)
  {
    var params := CollectCustomEntries(source);
    params := SortStrings(params);
    if |params| > 0 {
      s := ":" + Join(params, ":");
      JoinColons(params);
    } else {
      s := "";
    }
  }

  /** Setting a field that is not a custom parameter leaves the verifier's suffix alone. */
  lemma SuffixIgnoresStandardKey(source: map<string, string>, key: string, v: string)
    requires !HasPrefix(key, CustomPrefix)
    ensures VerifierSuffix(source[key := v]) == VerifierSuffix(source)
  {
    var updated := source[key := v];
    assert CustomKeys(updated) == CustomKeys(source);
    EntryBagLocal(updated, source, CustomKeys(source));
  }

  /**
   * A notification whose signature is the digest of its own verification
   * string, in any letter case, is accepted.
   */
  lemma VerifierAcceptsOwnSignature(source: map<string, string>, password: string, md5Hex: string -> string, sig: string)
    requires EqualFold(sig, md5Hex(VerifierString(source, password)))
    ensures Verify(source["SignatureValue" := sig], password, md5Hex) == Success(true)
  {
    var signed := source["SignatureValue" := sig];
    assert !HasPrefix("SignatureValue", CustomPrefix) by {
      assert "SignatureValue"[0] != CustomPrefix[0];
    }
    SuffixIgnoresStandardKey(source, "SignatureValue", sig);
    assert VerifierString(signed, password) == VerifierString(source, password);
  }

  /**
   * The verdict on a notification is whether its signature equals the digest
   * of its verification string up to case: a matching signature is accepted
   * and any other is rejected.
   */
  lemma VerifierVerdict(source: map<string, string>, password: string, md5Hex: string -> string, sig: string)
    ensures Verify(source["SignatureValue" := sig], password, md5Hex) ==
      Success(EqualFold(md5Hex(VerifierString(source, password)), sig))
  {
    var signed := source["SignatureValue" := sig];
    assert !HasPrefix("SignatureValue", CustomPrefix) by {
      assert "SignatureValue"[0] != CustomPrefix[0];
    }
    SuffixIgnoresStandardKey(source, "SignatureValue", sig);
    assert VerifierString(signed, password) == VerifierString(source, password);
  }

  /** The digest written in capitals is still accepted. */
  lemma VerifierIgnoresCase(source: map<string, string>, password: string, md5Hex: string -> string)
    ensures Verify(source["SignatureValue" := UpperAscii(md5Hex(VerifierString(source, password)))], password, md5Hex) == Success(true)
  {
    EqualFoldUpper(md5Hex(VerifierString(source, password)));
    VerifierAcceptsOwnSignature(source, password, md5Hex, UpperAscii(md5Hex(VerifierString(source, password))));
  }

  /** A notification whose amount text was altered has a different verification string. */
  lemma VerifierStringSeparatesAmounts(source: map<string, string>, password: string, amount: string)
    requires amount != FieldText(source, "OutSum")
    ensures VerifierString(source["OutSum" := amount], password) != VerifierString(source, password)
  {
    var altered := source["OutSum" := amount];
    assert !HasPrefix("OutSum", CustomPrefix) by {
      assert "OutSum"[0] != CustomPrefix[0];
    }
    SuffixIgnoresStandardKey(source, "OutSum", amount);
    assert FieldText(altered, "InvId") == FieldText(source, "InvId");
    var tail := ":" + FieldText(source, "InvId") + ":" + password + VerifierSuffix(source);
    assert VerifierString(altered, password) == amount + tail by {
      AmountInVerifierString(altered, password);
    }
    assert VerifierString(source, password) == FieldText(source, "OutSum") + tail by {
      AmountInVerifierString(source, password);
    }
    FrontDetermined(amount, FieldText(source, "OutSum"), tail);
  }

  /**
   * With a digest that tells all strings apart, even up to case, a
   * notification whose amount was altered after signing is rejected.
   */
  lemma VerifierRejectsAlteredAmount(source: map<string, string>, password: string, md5Hex: string -> string, amount: string)
    requires forall a, b :: EqualFold(md5Hex(a), md5Hex(b)) ==> a == b
    requires "OutSum" in source && amount != source["OutSum"]
    requires "SignatureValue" in source && source["SignatureValue"] == md5Hex(VerifierString(source, password))
    ensures Verify(source["OutSum" := amount], password, md5Hex) == Success(false)
  {
    var altered := source["OutSum" := amount];
    VerifierStringSeparatesAmounts(source, password, amount);
    assert !EqualFold(md5Hex(VerifierString(altered, password)), md5Hex(VerifierString(source, password)));
  }

  /** The verification string split after its amount. */
  lemma AmountInVerifierString(source: map<string, string>, password: string)
    ensures VerifierString(source, password) ==
      FieldText(source, "OutSum") + (":" + FieldText(source, "InvId") + ":" + password + VerifierSuffix(source))
  {
    Regroup(FieldText(source, "OutSum"), ":", FieldText(source, "InvId"), ":", password, VerifierSuffix(source));
  }

  /** The verification string split around its invoice id. */
  lemma InvoiceInVerifierString(source: map<string, string>, password: string)
    ensures VerifierString(source, password) ==
      (FieldText(source, "OutSum") + ":") + FieldText(source, "InvId") + (":" + password + VerifierSuffix(source))
  {
    Regroup3(FieldText(source, "OutSum") + ":" + FieldText(source, "InvId"), ":", password, VerifierSuffix(source));
  }

  /** A notification whose invoice id text was altered has a different verification string. */
  lemma VerifierStringSeparatesInvoiceIds(source: map<string, string>, password: string, invId: string)
    requires invId != FieldText(source, "InvId")
    ensures VerifierString(source["InvId" := invId], password) != VerifierString(source, password)
  {
    var altered := source["InvId" := invId];
    assert !HasPrefix("InvId", CustomPrefix) by {
      assert "InvId"[0] != CustomPrefix[0];
    }
    SuffixIgnoresStandardKey(source, "InvId", invId);
    assert FieldText(altered, "OutSum") == FieldText(source, "OutSum");
    InvoiceInVerifierString(altered, password);
    InvoiceInVerifierString(source, password);
    MiddleDetermined(FieldText(source, "OutSum") + ":", invId, FieldText(source, "InvId"),
      ":" + password + VerifierSuffix(source));
  }

  /**
   * With a digest that tells all strings apart, even up to case, a
   * notification whose invoice id was altered after signing is rejected.
   */
  lemma VerifierRejectsAlteredInvoice(source: map<string, string>, password: string, md5Hex: string -> string, invId: string)
    requires forall a, b :: EqualFold(md5Hex(a), md5Hex(b)) ==> a == b
    requires invId != FieldText(source, "InvId")
    requires "SignatureValue" in source && source["SignatureValue"] == md5Hex(VerifierString(source, password))
    ensures Verify(source["InvId" := invId], password, md5Hex) == Success(false)
  {
    var altered := source["InvId" := invId];
    VerifierStringSeparatesInvoiceIds(source, password, invId);
    assert !EqualFold(md5Hex(VerifierString(altered, password)), md5Hex(VerifierString(source, password)));
  }

  /** The characters of all the strings in a bag, counted with multiplicity. */
  ghost function CharBag(b: multiset<string>): multiset<char>
    decreases |b|
  {
    if b == multiset{} then multiset{}
    else
      var e :| e in b;
      CharBag(b - multiset{e}) + multiset(e)
  }

  /** The character bag does not depend on which string is taken out first. */
  lemma {:induction false} CharBagRemove(b: multiset<string>, e: string)
    requires e in b
    ensures CharBag(b) == CharBag(b - multiset{e}) + multiset(e)
    decreases |b|
  {
    var e0 :| e0 in b && CharBag(b) == CharBag(b - multiset{e0}) + multiset(e0);
    if e0 != e {
      var b0, b1 := b - multiset{e0}, b - multiset{e};
      var r := b0 - multiset{e};
      assert r == b1 - multiset{e0};
      CharBagRemove(b0, e);
      CharBagRemove(b1, e0);
      UnionSwap(CharBag(r), multiset(e), multiset(e0));
    }
  }

  lemma UnionSwap(x: multiset<char>, y: multiset<char>, z: multiset<char>)
    ensures x + y + z == x + z + y
  {
  }

  lemma CharBagAppend(init: seq<string>, last: string)
    ensures CharBag(multiset(init + [last])) == CharBag(multiset(init)) + multiset(last)
  {
    assert multiset(init + [last]) == multiset(init) + multiset{last};
    CharBagAdd(multiset(init), last);
  }

  lemma CharBagAdd(rest: multiset<string>, e: string)
    ensures CharBag(rest + multiset{e}) == CharBag(rest) + multiset(e)
  {
    CharBagRemove(rest + multiset{e}, e);
    assert rest + multiset{e} - multiset{e} == rest;
  }

  lemma ColonsAppendChars(init: seq<string>, last: string)
    ensures multiset(Colons(init + [last])) == multiset(Colons(init)) + multiset{':'} + multiset(last)
  {
    assert (init + [last])[..|init|] == init;
  }

  lemma ColonCount(n: nat)
    ensures multiset{}[':' := n] + multiset{':'} == multiset{}[':' := n + 1]
  {
  }

  lemma UnionRegroup(x: multiset<char>, c: multiset<char>, k: multiset<char>, l: multiset<char>)
    ensures x + c + k + l == x + l + (c + k)
  {
  }

  /** The characters of the colon-joined entries: every entry's characters and one colon per entry, in any order. */
  lemma {:induction false} ColonsChars(ps: seq<string>)
    ensures multiset(Colons(ps)) == CharBag(multiset(ps)) + multiset{}[':' := |ps|]
  {
    if ps != [] {
      var init, last := ps[..|ps| - 1], ps[|ps| - 1];
      assert ps == init + [last];
      ColonsChars(init);
      CharBagAppend(init, last);
      ColonsAppendChars(init, last);
      var before := multiset{}[':' := |init|];
      ColonCount(|init|);
      UnionRegroup(CharBag(multiset(init)), before, multiset{':'}, multiset(last));
    }
  }

  /** The characters of the verifier's suffix: those of every custom entry, and one colon per entry. */
  lemma SuffixChars(source: map<string, string>)
    ensures var b := EntryBag(source, CustomKeys(source));
      multiset(VerifierSuffix(source)) == CharBag(b) + multiset{}[':' := |b|]
  {
    var b := EntryBag(source, CustomKeys(source));
    var ps := SortedOf(b);
    ColonsChars(ps);
    assert |ps| == |multiset(ps)| == |b|;
  }

  /** Adding the same bag to two bags keeps them apart. */
  lemma MultisetCancel(a: multiset<char>, x: multiset<char>, y: multiset<char>)
    requires a + x == a + y
    ensures x == y
  {
    forall c
      ensures x[c] == y[c]
    {
      assert (a + x)[c] == a[c] + x[c] && (a + y)[c] == a[c] + y[c];
    }
  }

  /**
   * A new value for a custom field whose characters differ from the old
   * value's, as after any one-character substitution, insertion or
   * deletion, changes the verifier's suffix: sorting only rearranges the
   * entries, and the suffix keeps every character of every entry.
   */
  lemma SuffixSeparatesCustomEdit(source: map<string, string>, k: string, w: string)
    requires k in CustomKeys(source) && multiset(w) != multiset(source[k])
    ensures VerifierSuffix(source[k := w]) != VerifierSuffix(source)
  {
    var edited := source[k := w];
    var rest := EntryBag(source, CustomKeys(source) - {k});
    EntryBagEdit(source, k, w);
    var colons := multiset{}[':' := |rest| + 1];
    var common := CharBag(rest) + colons + multiset(k + "=");
    assert multiset(VerifierSuffix(source)) == common + multiset(source[k]) by {
      SuffixCharsSplit(source, rest, Entry(k, source[k]));
      EntryChars(CharBag(rest) + colons, k, source[k]);
    }
    assert multiset(VerifierSuffix(edited)) == common + multiset(w) by {
      SuffixCharsSplit(edited, rest, Entry(k, w));
      EntryChars(CharBag(rest) + colons, k, w);
    }
    if VerifierSuffix(edited) == VerifierSuffix(source) {
      MultisetCancel(common, multiset(w), multiset(source[k]));
    }
  }

  /** The entry bags before and after a custom value is rewritten share all but the rewritten entry. */
  lemma EntryBagEdit(source: map<string, string>, k: string, w: string)
    requires k in CustomKeys(source)
    ensures var rest := EntryBag(source, CustomKeys(source) - {k});
      && EntryBag(source, CustomKeys(source)) == rest + multiset{Entry(k, source[k])}
      && EntryBag(source[k := w], CustomKeys(source[k := w])) == rest + multiset{Entry(k, w)}
  {
    var edited := source[k := w];
    var keys := CustomKeys(source);
    CustomKeysUpdate(source, k, w);
    EntryBagLocal(source, edited, keys - {k});
    EntryBagRemove(source, keys, k);
    EntryBagRemove(edited, keys, k);
  }

  /** The characters of the suffix, with one entry set apart. */
  lemma SuffixCharsSplit(source: map<string, string>, rest: multiset<string>, e: string)
    requires EntryBag(source, CustomKeys(source)) == rest + multiset{e}
    ensures multiset(VerifierSuffix(source)) == CharBag(rest) + multiset{}[':' := |rest| + 1] + multiset(e)
  {
    var b := rest + multiset{e};
    var colons := multiset{}[':' := |rest| + 1];
    assert multiset(VerifierSuffix(source)) == CharBag(b) + colons by {
      SuffixChars(source);
      assert |b| == |rest| + 1;
    }
    CharBagAdd(rest, e);
    UnionSwap(CharBag(rest), multiset(e), colons);
  }

  /** The characters of an entry are those of its key, `=`, and its value. */
  lemma EntryChars(x: multiset<char>, k: string, v: string)
    ensures x + multiset(Entry(k, v)) == x + multiset(k + "=") + multiset(v)
  {
  }

  /** The same edit of a custom value changes the whole verification string. */
  lemma VerifierStringSeparatesCustomEdit(source: map<string, string>, password: string, k: string, w: string)
    requires k in CustomKeys(source) && multiset(w) != multiset(source[k])
    ensures VerifierString(source[k := w], password) != VerifierString(source, password)
  {
    CustomWriteKeepsFields(source, k, w);
    SuffixSeparatesCustomEdit(source, k, w);
    var head := FieldText(source, "OutSum") + ":" + FieldText(source, "InvId") + ":" + password;
    RestDetermined(head, VerifierSuffix(source[k := w]), VerifierSuffix(source));
  }

  /**
   * With a digest that tells all strings apart, even up to case, a
   * notification whose custom value was edited after signing so that its
   * characters changed is rejected.
   */
  lemma VerifierRejectsCustomEdit(source: map<string, string>, password: string, md5Hex: string -> string, k: string, w: string)
    requires forall a, b :: EqualFold(md5Hex(a), md5Hex(b)) ==> a == b
    requires k in CustomKeys(source) && multiset(w) != multiset(source[k])
    requires "SignatureValue" in source && source["SignatureValue"] == md5Hex(VerifierString(source, password))
    ensures Verify(source[k := w], password, md5Hex) == Success(false)
  {
    CustomWriteKeepsFields(source, k, w);
    VerifierStringSeparatesCustomEdit(source, password, k, w);
    assert !EqualFold(md5Hex(VerifierString(source[k := w], password)), md5Hex(VerifierString(source, password)));
  }

  /** A one-character change of length or a substitution by another character changes a string's characters. */
  lemma SingleEditChangesChars(v: string, w: string, i: nat, c: char)
    ensures |w| != |v| ==> multiset(w) != multiset(v)
    ensures i < |v| && c != v[i] ==> multiset(v[i := c]) != multiset(v)
  {
    if |w| != |v| {
      assert |multiset(w)| == |w| && |multiset(v)| == |v|;
    }
    if i < |v| && c != v[i] {
      assert multiset(v[i := c])[c] == multiset(v)[c] + 1;
    }
  }

  /**
   * Custom entries are joined with `:` and nothing in them is escaped, so a
   * change to a custom value can leave the verification string, and so the
   * verdict, as it was. With the custom fields `shp_k` = `a:shp_k=b` and
   * `shp_k=a:shp_k` = `b:shp_k=a`, setting `shp_k` to `b:shp_k=a` swaps the
   * order of the two entries, and both orders join to
   * `:shp_k=a:shp_k=b:shp_k=a:shp_k=b:shp_k=a`.
   */
  lemma CustomValueCollision(source: map<string, string>, password: string, md5Hex: string -> string)
    requires "shp_k" in source && "shp_k=a:shp_k" in source
    requires CustomKeys(source) == {"shp_k", "shp_k=a:shp_k"}
    requires source["shp_k"] == "a:shp_k=b" && source["shp_k=a:shp_k"] == "b:shp_k=a"
    ensures VerifierString(source["shp_k" := "b:shp_k=a"], password) == VerifierString(source, password)
    ensures Verify(source["shp_k" := "b:shp_k=a"], password, md5Hex) == Verify(source, password, md5Hex)
  {
    var k1, k2, w := "shp_k", "shp_k=a:shp_k", "b:shp_k=a";
    assert VerifierSuffix(source[k1 := w]) == VerifierSuffix(source) by {
      var e1, e2, e3 := "shp_k=a:shp_k=b", "shp_k=a:shp_k=b:shp_k=a", "shp_k=b:shp_k=a";
      assert Entry(k1, source[k1]) == e1 && Entry(k2, source[k2]) == e2 && Entry(k1, w) == e3;
      CollisionOrderBefore(e1, e2);
      CollisionOrderAfter(e2, e3);
      CollisionText();
      SwappedEntries(source, k1, k2, w);
    }
    InvisibleCustomWrite(source, k1, w, password, md5Hex);
  }

  /** A write to a custom field that leaves the verifier's suffix alone leaves the verdict alone. */
  lemma InvisibleCustomWrite(source: map<string, string>, k: string, w: string, password: string, md5Hex: string -> string)
    requires k in CustomKeys(source) && VerifierSuffix(source[k := w]) == VerifierSuffix(source)
    ensures VerifierString(source[k := w], password) == VerifierString(source, password)
    ensures Verify(source[k := w], password, md5Hex) == Verify(source, password, md5Hex)
  {
    CustomWriteKeepsFields(source, k, w);
    SameTextsSameVerdict(source[k := w], source, password, md5Hex);
  }

  /** Writing a custom field leaves the amount, the invoice id and the signature of a notification alone. */
  lemma CustomWriteKeepsFields(source: map<string, string>, k: string, w: string)
    requires k in CustomKeys(source)
    ensures FieldText(source[k := w], "OutSum") == FieldText(source, "OutSum")
    ensures FieldText(source[k := w], "InvId") == FieldText(source, "InvId")
    ensures ("SignatureValue" in source[k := w] <==> "SignatureValue" in source)
    ensures "SignatureValue" in source ==> source[k := w]["SignatureValue"] == source["SignatureValue"]
  {
    assert k[0] == 's';
  }

  /**
   * Changing the value of custom field `k1` moves its entry from before to
   * after the entry of `k2`; when both orders join to the same text, the
   * verifier's suffix stays as it was.
   */
  lemma SwappedEntries(source: map<string, string>, k1: string, k2: string, w: string)
    requires k1 in source && k2 in source && k1 != k2 && CustomKeys(source) == {k1, k2}
    requires Below(Entry(k1, source[k1]), Entry(k2, source[k2])) && Below(Entry(k2, source[k2]), Entry(k1, w))
    requires ":" + Entry(k1, source[k1]) + ":" + Entry(k2, source[k2]) == ":" + Entry(k2, source[k2]) + ":" + Entry(k1, w)
    ensures VerifierSuffix(source[k1 := w]) == VerifierSuffix(source)
  {
    var altered := source[k1 := w];
    assert VerifierSuffix(source) == ":" + Entry(k1, source[k1]) + ":" + Entry(k2, source[k2]) by {
      SuffixOfTwo(source, k1, k2);
      ColonsOfTwo(Entry(k1, source[k1]), Entry(k2, source[k2]));
    }
    assert VerifierSuffix(altered) == ":" + Entry(k2, source[k2]) + ":" + Entry(k1, w) by {
      CustomKeysUpdate(source, k1, w);
      assert altered[k2] == source[k2] && altered[k1] == w;
      SuffixOfTwo(altered, k2, k1);
      ColonsOfTwo(Entry(k2, source[k2]), Entry(k1, w));
    }
  }

  /** The entries of the colliding fields, in order before the change. */
  lemma CollisionOrderBefore(e1: string, e2: string)
    requires e1 == "shp_k=a:shp_k=b" && e2 == "shp_k=a:shp_k=b:shp_k=a"
    ensures Below(e1, e2)
  {
    assert e2 == e1 + ":shp_k=a";
    ExtensionBelow(e1, ":shp_k=a");
  }

  /** The entries of the colliding fields, in order after the change. */
  lemma CollisionOrderAfter(e2: string, e3: string)
    requires e2 == "shp_k=a:shp_k=b:shp_k=a" && e3 == "shp_k=b:shp_k=a"
    ensures Below(e2, e3)
  {
    assert e2[..6] == e3[..6];
    BelowAtFirstDifference(e2, e3, 6);
  }

  /** A string sorts before every extension of it. */
  lemma ExtensionBelow(a: string, t: string)
    ensures Below(a, a + t)
  {
    assert (a + t)[..|a|] == a;
    BelowPrefix(a, a + t);
  }

  /** Overwriting a present field keeps the set of custom keys. */
  lemma CustomKeysUpdate(m: map<string, string>, k: string, v: string)
    requires k in m
    ensures CustomKeys(m[k := v]) == CustomKeys(m)
  {
  }

  /** Two notifications that agree on the signed texts and on the signature get the same verdict. */
  lemma SameTextsSameVerdict(s1: map<string, string>, s2: map<string, string>, password: string, md5Hex: string -> string)
    requires FieldText(s1, "OutSum") == FieldText(s2, "OutSum") && FieldText(s1, "InvId") == FieldText(s2, "InvId")
    requires VerifierSuffix(s1) == VerifierSuffix(s2)
    requires ("SignatureValue" in s1 <==> "SignatureValue" in s2)
    requires "SignatureValue" in s1 ==> s1["SignatureValue"] == s2["SignatureValue"]
    ensures VerifierString(s1, password) == VerifierString(s2, password)
    ensures Verify(s1, password, md5Hex) == Verify(s2, password, md5Hex)
  {
  }

  /** Both orders of the colliding entries join to the same text. */
  lemma CollisionText()
    ensures ":" + "shp_k=a:shp_k=b" + ":" + "shp_k=a:shp_k=b:shp_k=a" == ":" + "shp_k=a:shp_k=b:shp_k=a" + ":" + "shp_k=b:shp_k=a"
  {
  }

  /** The verifier's suffix for exactly two custom fields whose entries are in order. */
  lemma SuffixOfTwo(m: map<string, string>, a: string, b: string)
    requires a in m && b in m && a != b && CustomKeys(m) == {a, b}
    requires Below(Entry(a, m[a]), Entry(b, m[b]))
    ensures VerifierSuffix(m) == Colons([Entry(a, m[a]), Entry(b, m[b])])
  {
    EntryBagOfTwo(m, a, b);
    SortedPair(Entry(a, m[a]), Entry(b, m[b]), SortedOf(EntryBag(m, CustomKeys(m))));
  }

  /** Only the amount, the invoice id, the signature and the custom fields of a notification matter. */
  lemma VerifierIgnoresOtherFields(s1: map<string, string>, s2: map<string, string>, password: string, md5Hex: string -> string)
    requires FieldText(s1, "OutSum") == FieldText(s2, "OutSum") && FieldText(s1, "InvId") == FieldText(s2, "InvId")
    requires ("SignatureValue" in s1 <==> "SignatureValue" in s2)
    requires "SignatureValue" in s1 ==> s1["SignatureValue"] == s2["SignatureValue"]
    requires CustomKeys(s1) == CustomKeys(s2)
    requires forall k :: k in CustomKeys(s1) ==> s1[k] == s2[k]
    ensures Verify(s1, password, md5Hex) == Verify(s2, password, md5Hex)
  {
    EntryBagLocal(s1, s2, CustomKeys(s1));
  }

  /**
   * The signer orders custom parameters by key, the verifier orders whole
   * `key=value` entries. With the keys `shp_a` and `shp_a0` the two orders
   * disagree, because `0` sorts before `=`.
   */
  lemma SortOrdersDiffer()
    ensures var custom := map["shp_a" := "1", "shp_a0" := "2"];
      && SignerSuffix(custom) == Colons(["shp_a=1", "shp_a0=2"])
      && VerifierSuffix(custom) == Colons(["shp_a0=2", "shp_a=1"])
  {
    SignerOrderExample();
    VerifierOrderExample();
  }

  lemma SignerOrderExample()
    ensures SignerSuffix(map["shp_a" := "1", "shp_a0" := "2"]) == Colons(["shp_a=1", "shp_a0=2"])
  {
    var custom := map["shp_a" := "1", "shp_a0" := "2"];
    ExampleKeys();
    var ps := Pairs(["shp_a", "shp_a0"], custom);
    assert ps[0] == "shp_a=1";
    assert ps[1] == "shp_a0=2";
    assert ps == ["shp_a=1", "shp_a0=2"];
  }

  lemma ExampleKeys()
    ensures KeysAscending(map["shp_a" := "1", "shp_a0" := "2"]) == ["shp_a", "shp_a0"]
  {
    var custom := map["shp_a" := "1", "shp_a0" := "2"];
    assert custom.Keys == {"shp_a", "shp_a0"};
    BelowPrefix("shp_a", "shp_a0");
    SortedPair("shp_a", "shp_a0", KeysAscending(custom));
  }

  /** The only sorted arrangement of two ordered strings. */
  lemma SortedPair(a: string, b: string, s: seq<string>)
    requires Below(a, b) && Sorted(s) && multiset(s) == multiset{a, b}
    ensures s == [a, b]
  {
    assert Sorted([a, b]);
    SortedUnique([a, b], s);
  }

  lemma VerifierOrderExample()
    ensures VerifierSuffix(map["shp_a" := "1", "shp_a0" := "2"]) == Colons(["shp_a0=2", "shp_a=1"])
  {
    var custom := map["shp_a" := "1", "shp_a0" := "2"];
    ExampleEntries();
    var entries := ["shp_a0=2", "shp_a=1"];
    assert entries[0][..5] == entries[1][..5];
    BelowAtFirstDifference(entries[0], entries[1], 5);
    SortedPair(entries[0], entries[1], SortedOf(EntryBag(custom, CustomKeys(custom))));
  }

  lemma ExampleEntries()
    ensures var custom := map["shp_a" := "1", "shp_a0" := "2"];
      EntryBag(custom, CustomKeys(custom)) == multiset{"shp_a0=2", "shp_a=1"}
  {
    var custom := map["shp_a" := "1", "shp_a0" := "2"];
    ExampleCustomKeys();
    ExampleBag(custom);
    assert Entry("shp_a", "1") == "shp_a=1" && Entry("shp_a0", "2") == "shp_a0=2";
  }

  lemma ExampleBag(custom: map<string, string>)
    requires custom == map["shp_a" := "1", "shp_a0" := "2"]
    ensures EntryBag(custom, {"shp_a", "shp_a0"}) == multiset{Entry("shp_a0", "2"), Entry("shp_a", "1")}
  {
    EntryBagOfTwo(custom, "shp_a", "shp_a0");
  }

  /** The entry bag of two keys. */
  lemma EntryBagOfTwo(m: map<string, string>, a: string, b: string)
    requires a in m && b in m && a != b
    ensures EntryBag(m, {a, b}) == multiset{Entry(b, m[b]), Entry(a, m[a])}
  {
    EntryBagRemove(m, {a, b}, a);
    assert {a, b} - {a} == {b};
    EntryBagOfOne(m, b);
  }

  lemma EntryBagOfOne(m: map<string, string>, b: string)
    requires b in m
    ensures EntryBag(m, {b}) == multiset{Entry(b, m[b])}
  {
    assert {b} - {b} == {};
  }

  lemma ExampleCustomKeys()
    ensures CustomKeys(map["shp_a" := "1", "shp_a0" := "2"]) == {"shp_a", "shp_a0"}
  {
    assert HasPrefix("shp_a", CustomPrefix) && HasPrefix("shp_a0", CustomPrefix);
  }
}
