# Novara wallet core in Dafny

A model of the three components of the Novara web wallet that hold its
logic, with proofs about them:

- **The Base58 codec** (`lib/base58.js`): class `Base58` with its alphabet and
  alphabet map, `encode` and `decode`. Both are arbitrary-precision base
  conversions on a growable digit array. The model keeps their loops: one
  method per loop, each proved against the numeric value of its digit list.
  The codec is modelled as written. `decode` returns its bytes least
  significant first and never reverses them. An all-zero buffer gets one
  `'1'` too many. Both are listed under Findings. A corrected codec
  (`Base58Intended`) is proved to round-trip exactly.
- **The wallet manager** (`wallet.js`, class `NovaraWalletManager`):
  - `sha256` is not SHA-256. It is a 32-bit rolling hash `h := 31·h + unit`
    over UTF-16 code units, printed as hex and padded to 64 characters. The
    model proves that its digest always starts with 56 `'0'`s.
  - The derived public key is that digest.
  - Every address is the same 34-character string `"1" + 33 × '0'`. It passes
    the send form's recipient check. Because of it, a second generated or
    imported wallet replaces the first; this is listed under Findings.
  - The private key is the hex spelling of 32 random bytes.
  - The wallet table and the current selection are the fields of a class.
    Its methods update them in place.
- **The transaction list manager** (`transactions.js`, class `TransactionManager`):
  - how a ledger transaction becomes a display record relative to the
    current address;
  - the stable newest-first sort after a rebuild;
  - the sent / received / history selections;
  - pending entries added, removed and confirmed;
  - address shortening.

Randomness, clocks and the current wallet's address are parameters. The
wallet table loaded from storage is an arbitrary initial map. The network
response is a parameter, with None for a failed request.

Files:
- `outcomes.dfy`: Option and Result.
- `jsnumber.dfy`: the ECMAScript integer operators the code uses (ToInt32, `<<`, `>>`, `| 0`, `& 0xff`, `x & x`).
- `digits.dfy`: positional digit lists and their values.
- `numerals.dfy`: `toString(radix)`, `${n}` and `padStart`.
- `jsstring.dfy`: `substring`.
- `base58.dfy`, `base58_intended.dfy`, `wallet.dfy`, `transactions.dfy`: the three components.

## Model

| member | source | states |
|---|---|---|
| Base58Codec.Base58.constructor | lib/base58.js:3-9 | after the loop, `alphabetMap[alphabet[i]] == i` for every position, and the map holds exactly the alphabet's symbols |
| Base58Codec.AlphabetText | lib/base58.js:4 | the alphabet is the 58-character Bitcoin alphabet |
| Base58Codec.AlphabetDistinct | lib/base58.js:4 | its 58 characters are pairwise distinct and exclude `0`, `O`, `I`, `l` |
| Base58Codec.AlphabetIndexed | lib/base58.js:4-8 | looking up the character at position i gives back i: map and alphabet are mutually inverse |
| Base58Codec.ShiftInByte | lib/base58.js:16-31 | one outer pass of `encode` leaves canonical base-58 digits worth 256 × old value + byte |
| Base58Codec.CarryBase58 | lib/base58.js:21-26 | the carry loop keeps every digit below 58, keeps the total value, and bounds the carry |
| Base58Codec.PushBase58 | lib/base58.js:28-31 | pushing the carry's digits yields a canonical list worth the old value plus the carry at the top |
| Base58Codec.EncodeValue | lib/base58.js:14-32 | after all bytes, the digits are the canonical base-58 digits of the buffer's big-endian value |
| Base58Codec.Base58.ZeroPrefix | lib/base58.js:34-38 | one `'1'` per leading zero byte |
| Base58Codec.Base58.AppendDigits | lib/base58.js:40-42 | the digits are appended most significant first, each as its alphabet symbol |
| Base58Codec.Base58.Encode | lib/base58.js:11-45 | `encode` returns EncodeSpec: `''` for an empty buffer, else the leading-zero `'1'`s then the value's base-58 digits |
| Base58Codec.EncodeInAlphabet | lib/base58.js:34-44 | every output character is in the alphabet |
| Base58Codec.EncodeLeadingOnes | lib/base58.js:34-42 | for a buffer with a nonzero byte, the leading `'1'`s are exactly its leading zero bytes |
| Base58Codec.EncodeAllZeros | lib/base58.js:14-42 | n ≥ 1 zero bytes encode to n + 1 `'1'`s |
| Base58Codec.ShiftInSymbol | lib/base58.js:57-72 | one pass of `decode`'s loop leaves canonical bytes worth 58 × old value + symbol index |
| Base58Codec.CarryBase256 | lib/base58.js:62-67 | the carry loop keeps every byte below 256, keeps the total value, and bounds the carry |
| Base58Codec.PushBase256 | lib/base58.js:69-72 | pushing the carry's bytes yields a canonical list worth the old value plus the carry at the top |
| Base58Codec.Base58.DecodeValue | lib/base58.js:50-73 | the first character outside the alphabet is the error; otherwise the bytes, least significant first, equal the string's base-58 value |
| Base58Codec.PrependZeros | lib/base58.js:75-81 | one zero byte is put in front per leading `'1'` |
| Base58Codec.Base58.Decode | lib/base58.js:47-84 | `decode` returns DecodeSpec, and `''` decodes to no bytes |
| Base58Codec.DecodeFailure | lib/base58.js:51-55 | decoding fails exactly when some character is outside the alphabet, and names such a character |
| Base58Codec.DecodeValueMeaning | lib/base58.js:50-83 | a successful decode is the leading zero bytes, then bytes whose least-significant-first value is the string's base-58 value |
| Base58Codec.RoundTripReversesPayload | lib/base58.js:11-84 | for a buffer with a nonzero byte, decoding the encoding gives the leading zeros, then the other bytes in reverse order |
| Base58Codec.RoundTripExactIff | lib/base58.js:11-84 | the round trip is exact if and only if the bytes after the leading zeros form a palindrome |
| Base58Codec.RoundTripAllZeros | lib/base58.js:11-84 | n ≥ 1 zero bytes come back as n + 2 zero bytes |
| Base58Codec.RoundTripSwapsTwoBytes | lib/base58.js:11-84 | [1, 2] encodes to "5T", which decodes to [2, 1] |
| Base58Codec.RoundTripTextSwaps | lib/base58.js:11-84 | the other round trip fails too: "5T" decodes to [2, 1], which encodes to "9r" |
| Base58Codec.RoundTripGrowsZero | lib/base58.js:14-81 | [0] encodes to "11", which decodes to [0, 0, 0] |
| Base58Intended.EncodeAgrees | lib/base58.js:11-45 | the corrected encoder agrees with `encode` on every buffer with a nonzero byte |
| Base58Intended.RoundTrip | lib/base58.js:11-84 | the corrected decoder inverts the corrected encoder on every buffer |
| Base58Intended.RoundTripText | lib/base58.js:11-84 | the corrected encoder inverts the corrected decoder on every string of alphabet symbols |
| Base58Intended.CorrectedTwoBytes | lib/base58.js:11-84 | corrected: [1, 2] encodes to "5T" and decodes back to [1, 2] |
| Base58Intended.CorrectedZeroByte | lib/base58.js:14-42 | corrected: [0] encodes to "1" and decodes back to [0] |
| Wallet.CodeUnits | wallet.js:94-95 | the loop sees UTF-16 code units, each below 2^16, at least one per character |
| Wallet.HashStep | wallet.js:96-97 | one step, `((hash << 5) - hash) + char` then `hash & hash`, is 31·h + unit wrapped to signed 32 bits |
| Wallet.HashUnits | wallet.js:93-98 | after the loop the hash is a signed 32-bit value: the polynomial Σ unit·31^k, wrapped to signed 32 bits |
| Wallet.HashDigest | wallet.js:91-100 | `sha256` returns 64 lower-case hex characters, the first 56 of them `'0'`, reading back as abs(hash) |
| Wallet.NovaraWalletManager.Sha256 | wallet.js:91-100 | the loop computes that hash; the result is 64 lower-case hex characters |
| Wallet.DigestShape | wallet.js:99 | the digest has 64 lower-case hex characters, the first 56 are `'0'`, and it reads back as abs(hash) |
| Numerals.NumeralRoundTrip | wallet.js:99 | `toString(16)` reads back as the number |
| Numerals.NumeralShape | wallet.js:99 | `toString(radix)` gives digit characters below the radix, with no leading zero except for "0" |
| Numerals.NumeralLength | wallet.js:99 | a number below radix^k has at most k digits, so abs(hash) ≤ 2^31 has at most 8 hex digits |
| Numerals.PadStartValue | wallet.js:99 | padding with `'0'` does not change the value read back |
| Wallet.ByteHex | wallet.js:71 | each byte becomes two hex digits, high nibble first |
| Wallet.PrivateKeyHex | wallet.js:68-72 | n random bytes give a key of 2n lower-case hex characters |
| Wallet.PrivateKeyHexShape | wallet.js:68-72 | n bytes give 2n lower-case hex characters, two per byte, high nibble first |
| Wallet.PrivateKeyRoundTrip | wallet.js:68-72 | reading the key back two characters at a time recovers the random bytes |
| Wallet.DerivePublicKey | wallet.js:75-80 | `substring(0, 64)` is the identity: the public key is the whole 64-character digest of the private key |
| Wallet.BitcoinAddress | wallet.js:83-88 | every public key gives the same address, `"1"` followed by 33 `'0'`s |
| Wallet.RecipientAccepted | app.js:264-267 | a recipient is accepted exactly when it starts with `'1'` and has at least 26 characters |
| Wallet.AddressAccepted | app.js:264-267 | the derived address passes the recipient check |
| Wallet.AddressCollision | wallet.js:75-88 | the private keys "a" and "b" have different public keys but the same address |
| Wallet.SecondWalletReplacesFirst | wallet.js:41-65 | two wallets stored one after the other under the shared address leave only the second; the first key survives only where it was already stored |
| Wallet.IntendedAddress | wallet.js:83-88 | corrected: `'1'` then the last 33 digest characters, 34 characters reading back as abs(hash of publicKey + "novara") |
| Wallet.IntendedAddressesDiffer | wallet.js:83-88 | corrected: public keys whose salted hashes differ in absolute value get different addresses |
| Wallet.NewRecord | wallet.js:51-58 | the stored record has balance 0 and the shared address |
| Wallet.NovaraWalletManager.constructor | wallet.js:3-8 | the table is the stored one; an empty table selects nothing, otherwise one stored wallet is current |
| Wallet.NovaraWalletManager.SelectWallet | wallet.js:130-140 | true and the entry's {address, privateKey, publicKey} current if the address is stored; else false and the selection unchanged |
| Wallet.NovaraWalletManager.GenerateWallet | wallet.js:41-65 | the key is the random bytes in hex; the record with balance 0 is stored under the derived address, replacing any record there and leaving other keys alone; it becomes current |
| Wallet.NovaraWalletManager.ImportWallet | wallet.js:103-127 | the same for a given private key, returning the address |
| Wallet.NovaraWalletManager.SignTransaction | wallet.js:143-165 | null without a current wallet; otherwise from, public key, timestamp = floor(ms / 1000), and signature = digest of from ‖ to ‖ amount ‖ timestamp ‖ private key |
| Wallet.SignatureShape | wallet.js:155 | every signature is 64 lower-case hex characters |
| Wallet.NovaraWalletManager.GetWalletList | wallet.js:168-174 | one {address, balance, created} per stored wallet, and nothing else |
| Wallet.SummaryCount | wallet.js:168-174 | the list has exactly as many entries as the table |
| Wallet.NovaraWalletManager.UpdateBalance | wallet.js:177-184 | for a stored address, only that balance changes and the result is true; otherwise false and nothing changes |
| Wallet.NovaraWalletManager.GetPrivateKey | wallet.js:187-189 | the stored key, or none when the address is absent or its key is empty |
| Transactions.DisplayId | transactions.js:16 | the id is `transaction_id`, else the first 16 characters of the signature, else `'unknown'`; never empty |
| Transactions.FormatTransaction | transactions.js:9-27 | received exactly when `to` is the current address and sent otherwise, never another type; block defaults to 0, timestamp to now; mining reward iff from is NETWORK; always confirmed |
| Transactions.UnrelatedIsSent | transactions.js:10-17 | a transaction naming the current address on neither side shows as sent |
| Transactions.FormatAll | transactions.js:37-44 | the rebuild has one formatted entry per fetched item, in order |
| Transactions.Insert | transactions.js:47 | inserting one entry into a list adds exactly that entry to its multiset |
| Transactions.InsertKeepsOrder | transactions.js:47 | inserting into a newest-first list keeps it newest first |
| Transactions.SortNewestFirst | transactions.js:47 | the sorted list has non-increasing timestamps and is a permutation of its input |
| Transactions.SortNewestFirstStable | transactions.js:47 | entries with equal timestamps keep their relative order |
| Transactions.TransactionManager.UpdateTransactions | transactions.js:30-55 | without a wallet or on a failed request the list is kept; otherwise it is the formatted entries sorted newest first |
| Transactions.TransactionManager.constructor | transactions.js:3-6 | an empty list and the filter `'all'` |
| Transactions.Keep | transactions.js:69 | the selection is no longer than the list and every entry in it has the selected direction |
| Transactions.KeepMembers | transactions.js:69 | the sent (received) selection holds exactly the sent (received) entries |
| Transactions.KeepAppend | transactions.js:93 | selecting from a concatenation selects from each part, so relative order is kept |
| Transactions.KeepPartition | transactions.js:69-93 | together the sent and received selections hold no entry more often than the list does, and they hold every entry as often as the list does exactly when no entry has another `type`; the lengths of the two selections and of the entries of other types add up to the list's length |
| Transactions.Unlisted | transactions.js:69-93 | the entries of another `type` than `'sent'` or `'received'`: no more than the list, each of another type |
| Transactions.UnlistedMembers | transactions.js:69-93 | those are exactly the entries of the list whose type is neither |
| Transactions.RebuildListed | transactions.js:37-47 | a rebuilt list has only sent and received entries, so the two selections cover it |
| Transactions.ConfirmOtherTypeHidden | transactions.js:185-193 | an entry confirmed with a `type` other than `'sent'` or `'received'` stays in the list but is in neither selection, so no pane or filtered history shows it |
| Transactions.SentPane | transactions.js:69-76 | the sent pane is the first min(10, n) entries of the sent selection, each a sent entry of the list |
| Transactions.ReceivedPane | transactions.js:93-100 | the received pane is the first min(10, n) entries of the received selection, each a received entry of the list |
| Transactions.History | transactions.js:117-123 | the filter `'sent'` shows exactly the sent entries, `'received'` exactly the received ones, and any other value the whole list |
| Transactions.TransactionManager.HistoryView | transactions.js:113-123 | the history shows only entries of the list; for `'sent'` or `'received'` every entry of that direction and no other; otherwise the whole list |
| Transactions.TransactionManager.FilterTransactions | transactions.js:153-156 | only the filter changes |
| Transactions.PendingEntry | transactions.js:160-170 | a sent, pending entry with the block still pending and id `'pending_' + now` |
| Transactions.TransactionManager.AddPendingTransaction | transactions.js:159-176 | exactly that entry is put in front of the unchanged old list, and its id is returned |
| Transactions.WithoutId | transactions.js:180 | the filtered list is no longer than the list and no entry in it has the removed id |
| Transactions.WithoutIdMembers | transactions.js:180 | removal keeps exactly the entries whose id differs |
| Transactions.WithoutIdAppend | transactions.js:180 | removal preserves the order of what remains |
| Transactions.WithoutAbsentId | transactions.js:180 | removing an id no entry has changes nothing |
| Transactions.TransactionManager.RemovePendingTransaction | transactions.js:179-182 | every entry with that id is removed and nothing else |
| Transactions.AddThenRemove | transactions.js:159-181 | adding a pending entry then removing its id is the same as removing that id from the old list; the old list comes back exactly when no old entry has that id |
| Transactions.FirstIndex | transactions.js:186 | the first position whose id matches, or none when no id matches |
| Transactions.Confirm | transactions.js:188-193 | each field the patch carries overrides the old one, its `type` string included, the others stay, and the entry ends confirmed and not pending |
| Transactions.TypeOf | transactions.js:69 | the record type a `type` string stands for, whose name is that string; another type exactly when it is neither `'sent'` nor `'received'` |
| Transactions.TypeOfName | transactions.js:69 | every record type is the one its own name stands for |
| Transactions.TransactionManager.ConfirmPendingTransaction | transactions.js:185-196 | only the first matching entry changes, to its confirmed overlay; with no match the list is unchanged |
| Transactions.ConfirmOnlyMatch | transactions.js:185-196 | the matched entry ends confirmed and not pending, and every other entry is unchanged |
| Transactions.ShortenAddress | transactions.js:199-203 | `''` becomes `'Unknown'`, `'NETWORK'` its label, and any other address its first min(8, n) characters, `'...'`, then its last min(6, n) |
| Transactions.ShortenLong | transactions.js:202 | an address of 14 or more characters becomes 8 + 3 + 6 = 17 characters |

## Left out

- Storage: `loadWallets` and `saveWallets` (wallet.js:11-28) read and write localStorage. The stored table is the constructor's parameter, and saving is not modelled. In the source the constructor calls `loadWallets` before it assigns `storageKey` (wallet.js:4-6), and nothing else calls `loadWallets`, so every load reads the key `"undefined"` while `saveWallets` writes the key `'novaraWallets'`: saved wallets never come back after a reload.
- Wallet.NovaraWalletManager.constructor: `Object.keys` order is not modelled. The constructor selects some stored wallet, not necessarily the first key.
- Wallet.NovaraWalletManager.GetWalletList: it returns a set, so the `Object.entries` order is not modelled.
- Lookups of inherited object keys are not modelled. In the source, `wallets['toString']` is a truthy inherited value.
- Stored records are assumed well formed, with string keys and a number balance. The record's `transactions: []` field is never read, so it is omitted.
- Wallet.NovaraWalletManager.ImportWallet: returns an address, never null. Its `catch` can fire only for a non-string argument, and the model's argument is a string. The key is not validated, as in the source.
- `crypto.getRandomValues`, `Date.now` and `new Date().toISOString()` are parameters: the random bytes, `nowMillis` / `nowSeconds` and `createdAt`. `addPendingTransaction` reads the clock twice, and the model uses one reading for both. `formatTransaction` reads the clock once per item, and the model uses one reading per rebuild.
- Wallet.NovaraWalletManager.SignTransaction: `amount` is the already rendered string, so `Number` to string conversion is not modelled. The timestamp is an ECMAScript time value, below 10^21, so it never prints in exponent form. The same holds for the `'pending_' + Date.now()` id of Transactions.PendingEntry, whose clock reading is not bounded in the model.
- Floating point: `parseFloat` of amounts, `toFixed`, and NaN timestamps are not modelled. Amounts, balances and timestamps are `real`s passed through unchanged.
- Transactions.FormatTransaction: a missing `transaction_id`, `signature`, `from`, `to` or `type` is the empty string. This differs from the source in one case: when the current address is itself `''`, a transaction without `to` shows as received in the model and as sent in the source, which compares `undefined` with `''`. A missing timestamp or block index is 0, which is falsy like `undefined`. A null transaction object, which makes the source throw, is not modelled.
- Transactions.Confirm: keys of `realTxData` that are not display-record fields are dropped. The source would copy them onto the record. Its `type` may be any string, but its `block` is limited to a block index or `'Pending'`; in the source it may be any value, which only the rendering reads.
- Transactions.TransactionManager.UpdateTransactions: the source checks the current wallet before its `await` (transactions.js:31-34) and reads its address again for every item afterwards (transactions.js:10-11). The model uses one address for all of these reads, so it does not capture a selection changed while the request is in flight, which would label one wallet's transactions against another wallet's address.
- `substring` and `slice` count characters here, while JavaScript counts UTF-16 code units. The two differ only for characters above U+FFFF. The hash does use code units (Wallet.CodeUnits).
- Base58Codec.Base58.Decode: `decode` indexes UTF-16 code units, so for a character above U+FFFF the source reports its first surrogate half. The model reports the whole character. The buffer given to `encode` is a sequence of bytes, each 0 to 255.
- The app's recipient check trims its input first. Trimming is not modelled, since an address has no white space.
- DOM rendering (`updateUI`, the three render methods, `showError`), `formatTime` with its locale and clock, and the network calls are not modelled. Only the list selections the views make are modelled.
- There is no real cryptography in the code, so nothing is claimed about collision resistance or signatures.

## Findings

| source | as written | input that shows it | evidently intended | confidence | as-written member | corrected member |
|---|---|---|---|---|---|---|
| lib/base58.js:50-83 | `decode` builds its bytes least significant first and returns them without reversing | `[1, 2]` encodes to `"5T"`, which decodes to `[2, 1]` | decode inverts encode: `"5T"` decodes to `[1, 2]` | high (proved; not executed) | Base58Codec.RoundTripSwapsTwoBytes | Base58Intended.RoundTrip |
| lib/base58.js:50-83 | for the same reason, decoding then encoding does not give the string back | `"5T"` decodes to `[2, 1]`, which encodes to `"9r"` | encode inverts decode on strings of alphabet symbols | high (proved; not executed) | Base58Codec.RoundTripTextSwaps | Base58Intended.RoundTripText |
| lib/base58.js:14-42 | `digits` starts as `[0]`, so a zero value is spelled `'1'` after the leading-zero `'1'`s | `[0]` encodes to `"11"`, which decodes to `[0, 0, 0]` | one `'1'` per zero byte: `[0]` encodes to `"1"` and decodes back to `[0]` | high (proved; not executed) | Base58Codec.RoundTripGrowsZero | Base58Intended.CorrectedZeroByte |
| wallet.js:83-88 | the address is `'1'` plus the first 33 characters of a digest whose first 56 are always `'0'` | the private keys `"a"` and `"b"` get the same address, so a second generated or imported wallet replaces the first and its key is lost | the address depends on the public key, e.g. `'1'` plus the digest's 33 low-order characters | high (proved; not executed) | Wallet.AddressCollision | Wallet.IntendedAddress |
