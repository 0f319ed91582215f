# Robokassa payment object, modelled in Dafny

This project models `Payment`, the Go client object for the Robokassa
payment gateway (`robokassa.go`). A merchant builds one payment in steps:
login, invoice number, amount, description, receipt, optional e-mail,
recurrence and custom `shp_` parameters. The object then does three jobs:

- it signs the payment with the MD5 digest of a colon-joined string;
- it turns the payment into a checkout link, or into a parameter map for a recurring charge;
- it checks the signatures of the notifications the gateway sends back, remembering the outcome.

Modules:

- `Wrappers`: `Option` and `Result`.
- `Text`: the Go formatting the code relies on. This covers `%d`, `%0.2f` and `%v` of an amount, `strings.Join`, `strings.HasPrefix` and `strings.EqualFold`. Every formatter has a parser and a round-trip lemma beside it.
- `Lexicographic`: Go's byte-wise string order, `sort.Strings` as a verified insertion sort, and the ascending key list of a map.
- `Store`: the record that replaces the untyped `data` map. It also holds:
  - `DataMap`, the untyped map as the Go code sees it;
  - the truncation `SetSum` applies;
  - the prefixing `AddCustomParameters` applies;
  - `mergeMaps` and `convertMapStringToInterface`.
- `Signer`: the outbound signature of `getSignValue`.
- `Verifier`: the inbound check of `validate` and `getCustomParamsString`.
- `Assembler`: the link that `GetPaymentUrl` builds.
- `Robokassa`: the class `Payment`. Its fields `data`, `customParams` and `valid` are updated in place, as the Go methods update them.

MD5 with hex encoding and `url.QueryEscape` are functions handed to the
constructor (`md5Hex`, `queryEscape`). Nothing is assumed about them
except where a lemma states its own hypothesis about the digest.

Where the code departs from the behaviour its documentation describes, the
model follows the code:

- **The "init_recurring" link.** It goes to the same address as "base": both constants are `https://auth.robokassa.ru/Merchant/Index.aspx?`.
- **The amount in the link.** `OutSum` is written with `%v` (`ShortAmount`). Below a million this is the shortest plain decimal ("100", "10.5"); from a million on, `%v` switches to Go's exponent form ("1e+06", "1.23456789e+06"). The signature uses `%0.2f` (`Fixed2`: "100.00").
- **Sort order.** The signer sorts custom keys, while the verifier sorts whole `key=value` entries. `Verifier.SortOrdersDiffer` shows the two orders differing for `shp_a` and `shp_a0`.
- **`GetCustomParam`.** It looks in the standard fields, so it never finds a custom parameter.
- **Empty custom parameters.** A link with no custom parameters still ends in `&`.
- **Unsigned fields.** The signature covers only the login, the amount, the invoice id, the receipt and the custom parameters. The description is checked to be non-empty but its text is not signed. Culture, currency label, e-mail, recurrence and the previous invoice id do not enter the signature either (`Signer.SignIgnoresUnsignedFields`).

Panics become error results: the four signing checks, and the type
assertion on a missing `SignatureValue`. The state is left as it was.

## Model

| member | source | states |
|---|---|---|
| Robokassa.Payment.constructor | robokassa.go:41-64 | A new payment holds the login and both passwords, amount 0, invoice 0, empty description and signature, culture "ru", no receipt, the test flag as given, no custom parameters, and `valid` false |
| Store.DataMapHasNoCustomKeys | robokassa.go:47-58 | No key of the standard data map carries the `shp_` prefix |
| Robokassa.Payment.SetInvoiceId | robokassa.go:204-207 | Only `InvId` changes: the data map is the old one with `InvId` overwritten |
| Robokassa.Payment.SetPreviousInvoiceId | robokassa.go:209-212 | The data map gains or overwrites `PreviousInvoiceID`, and nothing else changes |
| Store.PreviousInvoiceWrite | robokassa.go:209-212 | Setting the previous invoice id is one write of `PreviousInvoiceID` in the data map |
| Robokassa.Payment.SetSum | robokassa.go:221-228 | The amount truncated toward zero to whole cents is stored exactly when it is positive; otherwise InvalidSum is returned and the fields are unchanged |
| Store.TruncationIdempotent | robokassa.go:222 | Truncating an already truncated amount changes nothing |
| Store.TruncationExample | robokassa.go:222 | 10.567 truncates to 10.56 (1056 cents): digits are dropped, never rounded |
| Store.TruncationBounds | robokassa.go:222 | A non-negative amount truncates to the largest number of whole cents not above it |
| Store.TruncationPositiveIff | robokassa.go:222-227 | The truncated amount is positive exactly when the input is at least one cent, so SetSum rejects exactly the amounts below one cent |
| Robokassa.Payment.SetDescription | robokassa.go:237-240 | Only `Desc` changes |
| Robokassa.Payment.SetCulture | robokassa.go:249-252 | Only `Culture` changes |
| Robokassa.Payment.SetCurrencyLabel | robokassa.go:261-264 | Only `IncCurrLabel` changes |
| Robokassa.Payment.SetEmail | robokassa.go:266-269 | The data map gains or overwrites `Email`, and nothing else changes |
| Store.EmailWrite | robokassa.go:266-269 | Setting the e-mail is one write of `Email` in the data map |
| Robokassa.Payment.SetReceipt | robokassa.go:271-275 | `Receipt` becomes the query-escaped JSON text, and nothing else changes |
| Robokassa.Payment.SetRecurring | robokassa.go:277-280 | The data map gains or overwrites `Recurring` with true, and nothing else changes |
| Store.RecurringWrite | robokassa.go:277-280 | Setting recurrence is one write of `Recurring` in the data map |
| Robokassa.Payment.GetSum | robokassa.go:214-219 | The result is the amount that `OutSum` holds in the data map |
| Robokassa.Payment.GetDescription | robokassa.go:230-235 | The result is the string under `Desc` in the data map |
| Robokassa.Payment.GetCulture | robokassa.go:242-247 | The result is the string under `Culture` in the data map |
| Robokassa.Payment.GetCurrencyLabel | robokassa.go:254-259 | The result is the string under `IncCurrLabel` in the data map |
| Robokassa.Payment.AddCustomParameters | robokassa.go:157-167 | A missing map gives InvalidParam and no change; otherwise the custom map is the old one overridden by every given parameter under its `shp_` key |
| Store.Prefixed | robokassa.go:162-164 | The written entries are exactly the given keys with `shp_` in front, each with its given value |
| Store.PrefixedStep | robokassa.go:162-164 | Each loop iteration adds one prefixed entry, so the order of the writes does not matter |
| Store.AddedParameters | robokassa.go:157-167 | After adding: every given parameter is present under its prefixed key, every other old entry is untouched, and no other key appears |
| Robokassa.Payment.SignValue | robokassa.go:95-130 | The result is the specification `Signer.Sign`, applied to the payment's own login: the first failing check, or the digest of the signing string |
| Signer.SignOutcome | robokassa.go:96-114 | The checks apply in order (InvalidSum, then EmptyDescription, then InvalidInvoiceId, then EmptyReceipt); signing succeeds exactly when all four pass |
| Signer.FreshPaymentCannotSign | robokassa.go:49-57 | A payment that has only been constructed fails with InvalidSum |
| Signer.SignWhenChecksPass | robokassa.go:116-129 | Once the checks pass, the signature is the digest of the head string followed by the custom segments |
| Signer.CustomSuffix | robokassa.go:117-126 | The loop appends `:key=value` for every custom key in ascending order, which equals `SignerSuffix` |
| Signer.EmptySuffix | robokassa.go:117 | With no custom parameters there are no segments |
| Signer.NoCustomNoSuffix | robokassa.go:116-126 | Without custom parameters the signing string ends with the password |
| Signer.SigningExample | robokassa.go:116 | Login shop1, 100.00, invoice 7, receipt r and password pw sign the string `shop1:100.00:7:r:pw` |
| Signer.AmountExample | robokassa.go:116 | `%0.2f` writes 10000 cents as `100.00` |
| Signer.SignerSuffixCanonical | robokassa.go:118-124 | Any ascending arrangement of the custom keys yields the same suffix, so the order in which the map is walked does not matter |
| Signer.SignIgnoresUnsignedFields | robokassa.go:101-116 | Two payments that agree on login, amount, invoice id and receipt, and on whether the description is empty, sign alike: the description's text, culture, currency label, test flag, e-mail, recurrence, previous invoice id and stored signature do not affect the signature |
| Signer.AmountInSigningString | robokassa.go:116 | The signing string is the login and `:`, then the two-decimal amount, then the rest |
| Signer.SigningStringSeparatesAmounts | robokassa.go:116 | Two payments that differ only in amount have different signing strings |
| Signer.KeysAscendingAfterOverwrite | robokassa.go:118-122 | Overwriting an existing custom value keeps the sorted key list |
| Signer.PairsAfterOverwrite | robokassa.go:123-125 | Overwriting one custom value changes exactly one segment |
| Signer.SignerSuffixSeparatesCustomValues | robokassa.go:117-126 | Changing the value of one custom parameter changes the custom segments |
| Signer.SigningStringSeparatesCustomValues | robokassa.go:116-126 | Changing the value of one custom parameter changes the whole signing string |
| Signer.InvoiceInSigningString | robokassa.go:116 | The signing string is the login, the amount and `:`, then the `%d` invoice id, then the rest |
| Signer.SigningStringSeparatesInvoiceIds | robokassa.go:116 | Two payments that differ only in invoice id have different signing strings |
| Signer.ReceiptInSigningString | robokassa.go:116 | The signing string is the login, amount and invoice id with their colons, then the receipt, then the rest |
| Signer.SigningStringSeparatesReceipts | robokassa.go:116 | Two payments that differ only in receipt text have different signing strings |
| Text.Fixed2RoundTrip | robokassa.go:116 | `%0.2f` of an amount reads back as the same number of cents |
| Text.IntToDecRoundTrip | robokassa.go:116 | `%d` of an integer reads back as the same integer |
| Text.IntToDecInjective | robokassa.go:116 | Two different integers never print the same `%d` text |
| Text.NatToDecRoundTrip | robokassa.go:116 | The decimal digits of a natural number denote that number |
| Text.ShortAmountRoundTrip | robokassa.go:71 | `%v` of an amount reads back as the same number of cents, in both the plain and the exponent form |
| Text.PlainAmountRoundTrip | robokassa.go:71 | Below a million, the plain `%v` form reads back as the same number of cents |
| Text.OneDecimalRoundTrip | robokassa.go:71 | An amount with one significant decimal reads back from the plain form |
| Text.ExponentAmountRoundTrip | robokassa.go:71 | From a million on, the exponent form reads back as the same number of cents, and is never mistaken for a plain decimal |
| Text.TrimZerosValue | robokassa.go:71 | Dropping the trailing zeros of the mantissa keeps a non-empty prefix whose value, shifted back, is the original value |
| Text.MillionExample | robokassa.go:71 | One million (100000000 cents) prints as `1e+06` |
| Text.JoinColons | robokassa.go:183-184 | A colon followed by the entries joined with colons is a colon before every entry |
| Text.EqualFoldUpper | robokassa.go:148 | A digest and its upper-case form are equal up to case, both ways |
| Text.EqualFoldReflexive | robokassa.go:148 | Every string equals itself up to case |
| Lexicographic.SortStrings | robokassa.go:122 | The result is the sorted arrangement of the input's multiset: sorted, and a permutation of the input |
| Lexicographic.SortedUnique | robokassa.go:122 | Two sorted sequences with the same elements are equal, so the sort's output is determined by its input |
| Lexicographic.SortedKeys | robokassa.go:118-122 | The collected and sorted keys are the map's keys in ascending order, each exactly once |
| Lexicographic.BelowTotal | robokassa.go:122 | Go's string order is total |
| Lexicographic.BelowTransitive | robokassa.go:122 | Go's string order is transitive |
| Lexicographic.BelowAntisymmetric | robokassa.go:122 | Go's string order is antisymmetric |
| Lexicographic.BelowPrefix | robokassa.go:122 | A proper prefix sorts first |
| Verifier.CollectCustomEntries | robokassa.go:174-180 | The loop collects one `key=value` entry for each inbound key with the `shp_` prefix, and nothing else |
| Verifier.CustomParamsString | robokassa.go:173-187 | The result is a colon before each custom entry in ascending entry order, and empty without custom entries |
| Verifier.EntryBagRemove | robokassa.go:176-180 | The collected entries do not depend on the order in which the map is walked |
| Verifier.SuffixIgnoresStandardKey | robokassa.go:177 | A field without the prefix does not change the custom suffix |
| Robokassa.Payment.Validate | robokassa.go:140-151 | The password follows the trust tier; the outcome is whether the digest of `OutSum:InvId:password` plus the custom suffix equals `SignatureValue` up to case; the outcome is stored in `valid`; a missing `SignatureValue` is an error that leaves `valid` alone |
| Robokassa.Payment.ValidateResult | robokassa.go:132-134 | Checks with the validation password and stores the outcome |
| Robokassa.Payment.ValidateSuccess | robokassa.go:136-138 | Checks with the payment password and stores the outcome |
| Robokassa.Payment.IsValid | robokassa.go:153-155 | Returns the stored outcome of the last check |
| Verifier.VerifierAcceptsOwnSignature | robokassa.go:146-148 | A notification signed with the digest of its own verification string, in any letter case, is accepted |
| Verifier.VerifierVerdict | robokassa.go:146-148 | The verdict is exactly whether the signature equals the digest of the verification string up to case, so a signature that does not match is rejected |
| Verifier.VerifierIgnoresCase | robokassa.go:148 | The digest written in capitals is accepted |
| Verifier.VerifierStringSeparatesAmounts | robokassa.go:146 | A notification whose amount text is changed has a different verification string |
| Verifier.VerifierRejectsAlteredAmount | robokassa.go:146-148 | If the digest tells strings apart, a notification whose amount was changed after signing is rejected |
| Verifier.InvoiceInVerifierString | robokassa.go:146 | The verification string is the amount and `:`, then the invoice id, then the rest |
| Verifier.VerifierStringSeparatesInvoiceIds | robokassa.go:146 | A notification whose invoice id text is changed has a different verification string |
| Verifier.VerifierRejectsAlteredInvoice | robokassa.go:146-148 | If the digest tells strings apart, a notification whose invoice id was changed after signing is rejected |
| Verifier.SuffixChars | robokassa.go:174-186 | The suffix holds the characters of every custom entry and one colon per entry, whatever order the sort puts them in |
| Verifier.SuffixSeparatesCustomEdit | robokassa.go:174-186 | A new custom value whose characters differ from the old value's changes the suffix |
| Verifier.VerifierStringSeparatesCustomEdit | robokassa.go:146 | The same edit changes the whole verification string |
| Verifier.VerifierRejectsCustomEdit | robokassa.go:146-148 | If the digest tells strings apart, a notification whose custom value was so edited after signing is rejected |
| Verifier.SingleEditChangesChars | robokassa.go:146-148 | A change of length, or the substitution of one character by another, changes a string's characters, so each such edit of a custom value is caught |
| Verifier.CustomValueCollision | robokassa.go:173-187 | Entries are joined with `:` unescaped, so with custom fields `shp_k` = `a:shp_k=b` and `shp_k=a:shp_k` = `b:shp_k=a`, changing `shp_k` to `b:shp_k=a` leaves the verification string and the verdict unchanged |
| Verifier.SwappedEntries | robokassa.go:176-184 | When a changed custom value moves its entry past the other one and both orders join to the same text, the suffix is unchanged |
| Verifier.InvisibleCustomWrite | robokassa.go:146-148 | A change to a custom field that keeps the suffix keeps the verification string and the verdict |
| Verifier.AmountInVerifierString | robokassa.go:146 | The verification string is the amount, then the rest |
| Verifier.VerifierIgnoresOtherFields | robokassa.go:146-148 | Only the amount, invoice id, signature and `shp_` fields of a notification affect the verdict |
| Verifier.SortOrdersDiffer | robokassa.go:118-124 | For the keys `shp_a` and `shp_a0`, the signer orders the segments `shp_a=1`, `shp_a0=2` while the verifier orders them `shp_a0=2`, `shp_a=1` |
| Verifier.VerifierOrderExample | robokassa.go:176-182 | The verifier sorts `shp_a0=2` before `shp_a=1` |
| Verifier.SignerOrderExample | robokassa.go:118-124 | The signer puts `shp_a` before `shp_a0` |
| Robokassa.Payment.GetPaymentUrl | robokassa.go:66-88 | Signs first: a signing error is returned and nothing is stored. Otherwise the signature is stored and the result is the link for the mode |
| Robokassa.Payment.EncodedQuery | robokassa.go:69-80 | The query is the encoded standard fields, `&`, and the encoded custom parameters |
| Assembler.Encode | robokassa.go:69-80 | The loop writes the escaped `key=value` pairs in ascending key order, separated by `&` |
| Assembler.EncodedPairPresent | robokassa.go:69-72 | Every entry of the map appears as one escaped pair of its encoding |
| Assembler.EncodeEmpty | robokassa.go:73-76 | An empty map encodes to the empty string |
| Assembler.Shown | robokassa.go:70-72 | Every standard field is in the query values, printed with `%v` |
| Assembler.StandardValuesCarry | robokassa.go:67-72 | The query carries the stored signature, the `%v` amount, the decimal invoice id, the login, the receipt or `<nil>`, and `utf-8` |
| Assembler.PaymentUrlModes | robokassa.go:78-87 | Exactly "base", "init_recurring" and "recurring" succeed; every other mode gives InvalidParam; "init_recurring" gives the same link as "base" |
| Assembler.BaseUrlWithoutCustom | robokassa.go:80 | Without custom parameters the "base" link ends with the separator `&` |
| Assembler.BaseUrlCarriesSignature | robokassa.go:67-80 | The "base" query contains the escaped stored signature |
| Robokassa.Payment.GetPaymentRecurringParams | robokassa.go:90-93 | Signs and stores the signature. On a signing error nothing is stored; otherwise the result is the data map merged with the custom parameters |
| Store.MergeMaps | robokassa.go:282-291 | The keys are the union; the second map wins on shared keys; the first map's other entries are kept |
| Store.ConvertMap | robokassa.go:293-299 | Same keys, and every value is the original string, held as a string value |
| Store.Lookup | robokassa.go:191-194 | A value is found exactly when the key is present, and it is the stored value |
| Robokassa.Payment.GetSuccessAnswer | robokassa.go:169-171 | `OK`, then exactly the `%d` text of the invoice id (canonical: no leading zero, never `-0`, and it reads back as the id), then a newline |
| Text.IntToDecCanonical | robokassa.go:170 | `%d` writes no leading zero and never `-0` |
| Text.CanonicalDecUnique | robokassa.go:170 | The `%d` text is the only canonical text that reads back as a given integer |
| Robokassa.Payment.GetCustomParam | robokassa.go:189-195 | Always nothing: the lookup goes to the standard fields, which never hold a `shp_` key |

## Left out

- MD5 with hex encoding and `url.QueryEscape` are functions the constructor receives. The digest itself is not modelled.
- `json.Marshal` is not modelled: `SetReceipt` takes the receipt already marshalled to JSON text.
- Amounts are exact decimals, stored as whole cents. Four float64 effects are not modelled:
  - IEEE rounding before truncation (`0.29*100` is slightly below 29 as a float64);
  - the limit of 15 to 17 significant digits, beyond which `%v` and `%0.2f` (`Fixed2`) print the nearest float64 rather than the exact amount;
  - NaN and infinite amounts: `SetSum` takes an exact decimal, and Go's `int(NaN*100)` is platform-dependent;
  - `%v`'s exponent form for amounts below 0.0001, which whole cents never reach.
- Robokassa.Payment.SetSum: `int(sum*100)` converts to Go's 64-bit `int`; the model's cents are unbounded, so amounts whose cents lie outside the int64 range are not modelled.
- Go's `int` is 64 bits wide, but invoice ids are unbounded integers here.
- `Text.EqualFold` folds ASCII letters only. Go's `strings.EqualFold` also folds other Unicode letters, but a hex digest is ASCII.
- Inbound notifications are maps from strings to strings. Values of other dynamic types, and a nil map, are not modelled. An absent `OutSum` or `InvId` prints as `<nil>`, as `%v` prints a nil value.
- `url.Values.Encode` is modelled for one value per key, which is all this code ever sets.
- The `*Payment` that the setters return for chaining is dropped.
- The unused `context.Context` parameter of `GetPaymentUrl` is dropped.
- Panics are error results. A panic in `getSignValue` aborts `GetPaymentUrl` before it stores anything, and the model keeps that.
- `Robokassa.Payment.GetSuccessAnswer`: the fallback to 0 when `InvId` is not an integer cannot arise with the typed record. The invoice id is always an integer and starts at 0.
- Getter fallbacks to a zero value for a field of the wrong dynamic type cannot arise with the typed record either.
- `Robokassa.Payment.GetSum`: returns whole cents, not the float64 amount.
- The verifier's sensitivity is stated per field:
  - a changed amount or invoice id changes the verification string, and is rejected when the digest tells strings apart;
  - the receipt is not part of the verification string, so `Verifier.VerifierIgnoresOtherFields` shows it never affects the verdict;
  - a custom value changed so that its characters differ, as after any one-character substitution, insertion or deletion, changes the verification string (`Verifier.VerifierStringSeparatesCustomEdit`), and is rejected when the digest tells strings apart;
  - only a rearrangement of a value's characters can go undetected. `Verifier.CustomValueCollision` gives two notifications with the same verdict, because entries are joined with `:` unescaped. On the signer's side any change of a custom value changes the string (`Signer.SigningStringSeparatesCustomValues`), because keys delimit the pairs there.
- Verifier.VerifierRejectsAlteredAmount, Verifier.VerifierRejectsAlteredInvoice and Verifier.VerifierRejectsCustomEdit assume a digest that tells all strings apart. Real MD5 cannot do that, having finitely many outputs; the string-level facts they rest on are proved without that assumption.
