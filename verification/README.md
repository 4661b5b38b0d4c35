# mixin-sdk-go client core, modelled in Dafny

This project models the client-side logic of the Mixin Network Go SDK that can be stated without the
network or the cryptography:

- **Client construction** (`client.go`). `NewFromKeystore` sniffs the private key. It looks for the PEM
  marker `RSA PRIVATE KEY` first, then tries the compact Ed25519 encoding, and otherwise fails with
  `unexpected private key format`. The two other constructors are `NewFromAccessToken` and
  `NewFromOauthKeystore`. Each constructor fixes which signer signs requests and which verifier checks
  responses. Module `MixinClient` (`client.dfy`).
- **PIN handling** (`pin.go`). `ValidatePinPattern` is a check against the regular expression
  `^\d{6}$`. `VerifyPin` and `ModifyPin` build request bodies of encrypted PINs. Module `Pin`
  (`pin.dfy`) contains a small matcher for the fragment of RE2 syntax this pattern uses. It proves
  that the pattern accepts exactly the strings of six ASCII digits.
- **The multisig example program** (`_examples/multisig/main.go`). Module `MultisigExample`
  (`multisig.dfy`) models:
  - the paginated search for the output of a transfer;
  - the choice of the amount to spend;
  - the decision to ask for an unlock;
  - the broadcast scan of the background submitter.

  Module `Hex` (`hex.dfy`) gives the lowercase hex encoding that the search uses to compare hashes.
  Module `Wrappers` (`wrappers.dfy`) holds `Option`, `Result` and Go-style error values: a plain
  message, or a prefix that wraps a cause, as `fmt.Errorf` with `%w` builds it.

Calls into code outside the model are passed in as values. The key parsers and the Ed25519 decoding
test form a `KeyLoaders` record of functions. `EncryptPin` is an `encryptPin` function. The answers of
`ReadMultisigOutputs` are a finite script of pages or errors, one per read. The server's
multisig-request snapshots are parameters. `SendRawTransaction` is a `send` function.

Amounts are natural numbers in units of 10^-8. The example halves an amount with exact decimal
arithmetic: the half is exact with nine decimals, and `Truncate(8)` drops the ninth.

The PIN requests and the multisig flow do less than one might expect:

- `VerifyPin` and `ModifyPin` do not call `ValidatePinPattern`; any string is encrypted and sent.
- `client.go`, `pin.go` and the example keep no PIN counter and do not implement the multisig request
  state machine, which is the server's; the model has neither.

## Model

| member | source | states |
|---|---|---|
| `MixinClient.Contains` | client.go:21 | `strings.Contains` is true exactly when the marker occurs at some position of the key (`HasSubstring`) |
| `MixinClient.SelectScheme` | client.go:21-33 | RSA iff the key contains the RSA marker, even if it would also decode; Ed25519 iff it lacks the marker and decodes; no scheme iff neither |
| `MixinClient.NewFromKeystore` | client.go:18-42 | success gives a keystore signer of the selected scheme, the no-op verifier and the keystore's ClientID; a failing sub-constructor's error comes back wrapped as "RSA keystore" or "ed25519 keystore" with no client; neither format gives "unexpected private key format" |
| `MixinClient.KeystoreErrorCause` | client.go:23-32 | every failure has exactly one cause: the chosen parser's error, recoverable with `Unwrap` and shown after the scheme prefix, or the format error, which wraps nothing |
| `MixinClient.NewFromAccessToken` | client.go:44-51 | the token signer, the no-op verifier and an empty ClientID |
| `MixinClient.NewFromOauthKeystore` | client.go:53-66 | success iff the OAuth parser succeeds; its error is returned unchanged; on success one auth object is both signer and verifier, and ClientID comes from the keystore |
| `Pin.PinRegexMeaning` | pin.go:30 | under RE2 semantics (`\d` ASCII only, `$` only at the end of the text), `^\d{6}$` matches a string iff it has exactly six characters, all ASCII digits |
| `Pin.ValidatePinPattern` | pin.go:34-40 | nil iff the PIN is six ASCII digits; otherwise one error, the message naming the pattern |
| `Pin.PinPatternExamples` | pin.go:30-40 | "123456" is accepted; "12345", "1234567", "1a2b3c" and "123456\n" are rejected |
| `Pin.PinPatternMessageText` | pin.go:36 | the error text is `pin must match regex pattern "^\\d{6}$"`, the pattern quoted as `%q` does |
| `Pin.VerifyPin` | pin.go:9-15 | the request goes to `/pin/verify`; its body has exactly one key, `pin`, holding the encrypted PIN; there is no format precondition |
| `Pin.ModifyPin` | pin.go:17-27 | the request goes to `/pin/update`; `old_pin` is present iff the old PIN is non-empty; `pin` always holds the encrypted new PIN; no other keys; the old PIN is encrypted before the new one, and there are one or two encryptions |
| `Hex.EncodeToString` | _examples/multisig/main.go:101 | two lowercase hex digits per byte |
| `Hex.EncodeToStringInjective` | _examples/multisig/main.go:101 | equal encodings mean equal hashes, so comparing hex text compares hashes |
| `MultisigExample.ScanPageResult` | _examples/multisig/main.go:99-105 | with no match, the whole page was scanned and the cursor is the last output's `UpdatedAt` (unchanged for an empty page); with a match, the result is the first matching output and the cursor is its `UpdatedAt` |
| `MultisigExample.ScanOutputs` | _examples/multisig/main.go:99-105 | the inner loop returns what `ScanPage` specifies |
| `MultisigExample.FindMultisigUtxo` | _examples/multisig/main.go:88-113 | the loop's outcome, and the cursor sent with each read, equal those of the `Search` specification |
| `MultisigExample.SearchReads` | _examples/multisig/main.go:93-113 | the first read starts from the zero time. A read follows another only after a page of at least `limit` outputs without a match, and it is sent from that page's last cursor. The last read explains the outcome: the first match of its page; a short page without a match ("No Unspent UTXO"); a read error; or a read the script does not answer |
| `MultisigExample.FoundHasTransferHash` | _examples/multisig/main.go:101-102 | the found output's transaction hash is the transfer's hash |
| `MultisigExample.ShortPageEndsSearch` | _examples/multisig/main.go:92-113 | limit 10 with pages of 10, 10 and 7 outputs and no match: exactly three reads, then "No Unspent UTXO" |
| `MultisigExample.SpendAmount` | _examples/multisig/main.go:115-118 | half the amount rounded down to 10^-8, or the whole amount when that half is zero; a positive amount gives a positive result no larger than the amount |
| `MultisigExample.SignRound` | _examples/multisig/main.go:167-189 | a sign request is created and signed first; an unlock request is created and unlocked iff the signed snapshot has fewer signers than its threshold |
| `MultisigExample.SignedTxsMembership` | _examples/multisig/main.go:235-237 | a transaction is broadcast iff some output in state Signed with a non-empty SignedBy carries it |
| `MultisigExample.SubmittedFromAttempts` | _examples/multisig/main.go:237-242 | each logged hash answers one attempted broadcast; there are no more hashes than attempts, and one per attempt when every broadcast succeeds |
| `MultisigExample.SubmitSignedOutputs` | _examples/multisig/main.go:235-244 | the transactions sent are those of the broadcastable outputs, in order, whatever earlier broadcasts returned; the logged hashes are those of the successful broadcasts |

## Left out

- HTTP plumbing (`Client.Request`, `Get`, `Post`, `UnmarshalResponse`, client.go:68-90). It is transport over an external library. The PIN operations return the request they would post instead of posting it, and `Post`'s error is not modelled.
- Key parsing (`AuthFromKeystore`, `AuthEd25519FromKeystore`, `AuthFromOauthKeystore`) and `ed25519Encoding.DecodeString`. They are cryptographic code outside the model and are passed in as functions.
- `EncryptPin` is passed in as a pure function. Any nonce or counter inside it is not part of this model, so two encryptions of the same PIN give the same text here.
- Signing of requests and verification of responses. These are the signers' and verifiers' own code, outside the model; only which signer and verifier a client holds is modelled.
- `FindMultisigUtxo`: the answers of `ReadMultisigOutputs` are a finite script. The Go loop can read forever if the service keeps returning full pages; the model stops with `Unanswered` when the script runs out. The members, threshold and limit sent with each read are not recorded, only the cursor.
- `log.Panic*` and `log.Printf` calls. An aborting error becomes an outcome (`ReadFailed`, `NoUnspentUtxo`); logging is the list of submitted hashes.
- The rest of `main`: keystore loading, `UserMe`, `CreateUser`, `Transaction`, `MakeMultisigTransaction`, `DumpTransactionPayload`, and the first and third signing blocks (main.go:145-165 and 191-211). These are network calls in straight-line order with no decision of their own. Errors of the calls in the second block are not modelled.
- The goroutine, `select` on cancellation and timers, and the sleeps (main.go:68, 86, 212, 215-248). Only one polling round's scan is modelled (`SubmitSignedOutputs`, over the page the round read).
- `SubmitSignedOutputs`: `send` is one function per round, so a transaction that appears twice in a page gets the same answer both times.
- `decimal.NewFromFloat(1)` (main.go:72) is a float conversion. Amounts are integers of 10^-8 units.
- The multisig request state machine and the counting of signers are the server's; `client.go`, `pin.go` and the example implement neither. `SignRound` reads `Signers` and `Threshold` from the server's snapshot.
