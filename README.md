# GitHub webhook handler — a Dafny model

This project models the request handler of a small Flask service that receives
webhook deliveries from GitHub (or GitHub Enterprise). On a POST, the handler:

1. checks that the sender's address lies in one of the service's hook network blocks;
2. answers `ping` events and ignores events other than `push`;
3. loads `repos.json` and parses the body;
4. picks the configuration entry for the pushed branch, falling back to the
   repository-wide entry;
5. verifies the `X-Hub-Signature` HMAC when the entry has a key;
6. runs the entry's actions one after the other in the entry's `path`.

The single source file is `index.py`. It has three parts, modelled as follows:

- `digest.dfy` (module `Digest`) is the pure-Python `compare_digest` fallback. It is a
  method with the source's accumulator loop. The method is proved to compute string
  equality and to fold in every pair of characters; it never stops early. Python's
  `ord`, `^` and `|` work on unbounded non-negative integers, so `Xor` and `Or` are
  defined bit by bit on `nat`.
- `allowlist.dfy` (module `AllowList`) is the `for block in hook_blocks ... else:
  abort(403)` scan. It is a method with an early `break`, proved to answer "some block
  holds the address". Addresses and networks are modelled concretely: an IPv4 or IPv6
  family, the address as an integer, and a network as a base plus a prefix length. A
  block holds an address when they share the family and the leading `prefix` bits.
- `lookup.dfy` (module `Lookup`) covers the branch pattern, the two lookup keys and the
  fallback. Python's local `repo` is modelled as assigned or unassigned. A ref outside
  `refs/heads/` leaves `repo` unassigned, so `if not repo` raises `UnboundLocalError`.
  An entry counts as found only when it is Python-true: neither missing nor `{}`.
- `actions.dfy` (module `Actions`) is the action loop. Each `Popen(action, cwd=path)`
  followed by its `wait()` is recorded as an `Invocation` in a trace.
- `webhook.dfy` (module `Webhook`) holds the request, the outcome and the view.
  - `Handle` is a pure decision function from an abstract request to an outcome plus
    the trace of started processes.
  - The outcomes are `Ok`, `Hi`, `WrongEvent`, `Forbidden` (403) and `Crash` (an
    exception: HTTP 500).
  - `Index` runs the same steps imperatively, using the loops above. It is proved to
    return exactly what `Handle` returns.
- `properties.dfy` (module `Properties`) proves the promised behaviour of `Handle`:
  the order of the checks, what each rejection leaves untouched, and that a process
  starts only after every check has passed.

External effects are inputs of the request:
- the hook block list, either the `GHE_ADDRESS` override or GitHub's `/meta` list;
- `repos.json` after parsing, or a failure;
- the body after parsing, or a failure;
- the raw body bytes;
- the headers.

The HMAC-SHA1 hex digest is a function-valued parameter (`Hmac`) and is left
uninterpreted.

Three behaviours of `index.py` are easy to misread, and the model follows the code:
- A keyed entry with no `X-Hub-Signature` header does not get a 403. The code calls
  `None.split` and raises, so the model gives `Crash(MissingSignature)`.
- Configuration keys are only `owner/name/branch:B` and `owner/name`. No key is
  scoped by event type.
- The handler writes nothing back to the service. Apart from fetching `/meta`,
  reading `repos.json` and logging, its only effect is starting the configured
  processes, whose argument vectors are used verbatim.

## Model

| member | source | states |
|---|---|---|
| Digest.CompareDigest | index.py:166-183 | Returns true exactly when the two strings are equal. Returns false at once when the lengths differ. Otherwise it folds every one of the `len(a)` pairs into the accumulator and never exits early. |
| Digest.Matches | index.py:177-183 | The value `compare_digest` returns: equal lengths and a zero accumulator after all pairs. `MatchesIsEquality` proves it is string equality. |
| Digest.MatchesIsEquality | index.py:177-183 | The length check followed by "accumulator is zero" is string equality, in both directions. |
| Digest.AccumulatedZero | index.py:180-183 | Loop invariant: the accumulator after `n` pairs is zero if and only if the first `n` characters of the two strings agree. |
| Digest.Ord | index.py:182 | Python's `ord`: the code point of a character. `XorZero` is applied to it in `AccumulatedZero`. |
| Digest.Xor | index.py:182 | Python's `^` on non-negative integers, defined bit by bit from the lowest bit. `XorZero` proves it is zero exactly for equal operands. |
| Digest.Or | index.py:182 | Python's `\|` on non-negative integers, defined bit by bit from the lowest bit. `OrZero` proves it is zero exactly when both operands are. |
| Digest.Accumulated | index.py:180-182 | The value of `result` after the loop has folded in the first `n` pairs, starting from 0. `AccumulatedZero` states when it is zero, and `CompareDigest`'s loop invariant ties the loop to it. |
| Digest.XorZero | index.py:182 | `ord(x) ^ ord(y)` is zero exactly when the two code points are equal. |
| Digest.OrZero | index.py:182 | `result \| d` is zero exactly when both operands are zero, so a single difference can never be undone. |
| AllowList.Contains | index.py:75 | `ip in ip_network(block)`: the families agree and the leading `prefix` bits of the address equal those of the network address. `WholeSpace` and `HostRoute` characterise it, and `IsAllowed` scans for it. |
| AllowList.Allowed | index.py:74-80 | Some block of the list contains the address: the outcome of the for/else scan. `IsAllowed` is proved to return it, and `Handle` uses it for the address check. |
| AllowList.IsAllowed | index.py:74-80 | The for/else scan with `break` admits the address exactly when some block contains it. An empty block list admits nothing. |
| AllowList.WholeSpace | index.py:75 | A `/0` block contains every address of its family. |
| AllowList.HostRoute | index.py:75 | A full-length block contains exactly its own address, and never an address of the other family. |
| AllowList.ContainsIsRange | index.py:75 | For every prefix length, an address is in the block exactly when it has the block's family and lies between the network address `lo` and the broadcast address `lo + BlockSize - 1`. `lo` is the base with its host bits cleared, and `BlockSize` is `2^(width - prefix)`. |
| AllowList.QuotientRange | index.py:75 | The quotient test used by `Contains`: `x // s == q` holds exactly when `q*s <= x < q*s + s`. `ContainsIsRange` rests on it. |
| AllowList.BlockSize | index.py:75 | The number of addresses in a block, `2^(width - prefix)`, never zero. `ContainsIsRange` states the block's range with it. |
| Text.TakeUntil | index.py:117 | The text kept by `.*`: the longest prefix containing no newline, followed in the input by a newline or by the end of the string. |
| Lookup.ParseBranch | index.py:117-119 | The pattern matches exactly when the ref starts with `refs/heads/`. The branch is the rest of the ref up to the first newline; the match is anchored only at the start. |
| Lookup.ParseBranchRoundTrip | index.py:117-119 | A newline-free branch name `b` is recovered from `refs/heads/b`, and also from the same ref followed by a newline and any text. |
| Lookup.RepoKey | index.py:128 | The fallback key `'{owner}/{name}'`. `RepoEntryFallback`, `FoundIffCandidate` and `NoEntryRefuses` speak about the entry under it. |
| Lookup.BranchKey | index.py:120-121 | The branch key `owner/name/branch:B` is never the same string as the fallback key `owner/name`. |
| Lookup.BranchKeyInjective | index.py:120-121 | Two branches of one repository have the same branch key only if they are the same branch, so different branches read different entries. |
| Lookup.IsEmpty | index.py:127 | The entry is the empty object `{}`: no `key`, `path` or `action` field and no other field. Python treats it as false at lines 127 and 133; `Truthy` and `Resolve` use it, and so do the lookup lemmas. |
| Lookup.Resolve | index.py:116-133 | The lookup ends in the unbound-variable error exactly when the ref lacks the `refs/heads/` prefix. A found entry is a non-empty value of the configuration map. |
| Lookup.BranchEntryFirst | index.py:118-121 | A non-empty entry under `owner/name/branch:B` is the one used for a push to `refs/heads/B`. |
| Lookup.RepoEntryFallback | index.py:126-128 | For any ref under `refs/heads/`, including one where a newline follows the branch name, a missing or `{}` branch entry falls back. The `owner/name` entry is used if it is non-empty; otherwise nothing is found. |
| Lookup.FoundIffCandidate | index.py:116-133 | For a branch ref, an entry is found if and only if one of the two candidate keys holds a non-empty entry. The branch entry is used when it is non-empty. Otherwise the result is the `owner/name` entry if that is non-empty, and nothing if it is not. |
| Lookup.GetEntry | index.py:120-121 | `repos.get(k, None)`: the entry stored under `k`, or None. The lookup lemmas above speak about it. |
| Lookup.Truthy | index.py:127 | Python truthiness of a looked-up entry: false for None and for the empty object `{}`. This is what `Resolve` and its lemmas use for "found". |
| Text.FirstIndex | index.py:139-140 | Finds the first `=` of the header, when there is one; no `=` comes before it. |
| Webhook.SignatureField | index.py:139-140 | `split('=')[1]` exists exactly when the header has an `=`. It is the `=`-free text that follows the first `=`. |
| Webhook.SignatureFieldRoundTrip | index.py:139-140 | A header `algorithm=digest` yields `digest`. |
| Actions.Trace | index.py:152-155 | Running a list of actions starts one process per action. The i-th process gets the i-th argument vector and the entry's `path` as its working directory. |
| Actions.RunAll | index.py:152-155 | The loop's trace is the action list mapped to invocations, in list order. |
| Webhook.HasKey | index.py:135-136 | `if key:`: the entry has a `key` field that is a non-empty string. `KeyedEntryChecksSignature` and `UnkeyedEntryTrusted` speak about the two cases. |
| Webhook.ActionsOf | index.py:152-155 | The processes an entry starts: one per element of `action`, in order, each with the i-th argument vector and the entry's `path`. None when `action` is absent. Its postconditions are the statement that actions start in list order, one each, in `path`. |
| Webhook.Dispatch | index.py:111-161 | The part of the view after both parses. It answers `'OK'`, 403 or an exception, never the ping or wrong-event replies. Only `'OK'` starts processes, and `'OK'` needs a branch ref. |
| Webhook.Handle | index.py:53-161 | The view as a decision function: a request maps to an outcome and the trace of started processes. Any outcome other than `'OK'` starts nothing, and a non-empty trace needs an admitted push. Its first postcondition is the statement that any answer other than `'OK'` (ping, wrong event, 403, exception) starts no process. Every lemma of `Properties` is about it. |
| Webhook.Index | index.py:53-161 | The step-by-step view returns exactly the outcome and trace that the decision function `Handle` assigns to the request. |
| Properties.GetAnswersOk | index.py:55-56 | A GET is answered `'OK'` and starts nothing. |
| Properties.ForeignSenderRefused | index.py:74-80 | A POST from outside every block gets 403. Changing its event, configuration, payload, body, signature or HMAC cannot change that answer. |
| Properties.EmptyBlockListRefuses | index.py:74-80 | With an empty block list every POST gets 403. |
| Properties.PingAnswersHi | index.py:85-86 | An admitted ping gets `{"msg": "Hi!"}`. The configuration, body and signature play no part. |
| Properties.OtherEventIgnored | index.py:87-88 | An admitted event that is neither ping nor push gets `{"msg": "wrong event type"}`; this includes a missing event header. The configuration, body and signature play no part. |
| Properties.ConfigFailureRefuses | index.py:90-97 | An unreadable `repos.json` gives 403 whatever the body is, because it is loaded before the body is parsed. |
| Properties.PayloadFailureRefuses | index.py:102-109 | A body that is not JSON gives 403. |
| Properties.NonBranchRefFaults | index.py:117-128 | A push whose ref is not `refs/heads/...` raises (unbound `repo`). It does not get a 403. |
| Properties.NoEntryRefuses | index.py:126-133 | Take any ref under `refs/heads/`, a newline after the branch name included. With neither a non-empty entry for the captured branch nor a non-empty repository entry, the push gets 403 and starts nothing. |
| Properties.HeadHasNoResponse | index.py:55-57 | A HEAD request is neither GET nor POST, so the view returns nothing and raises. |
| Properties.MissingFieldFaults | index.py:111-117 | An admitted push whose body lacks the repository name, the owner name or `ref` raises before any lookup and starts nothing. |
| Properties.KeyedEntryWithoutHeaderFaults | index.py:136-140 | A keyed entry with no `X-Hub-Signature` header raises on `None.split`; it does not get a 403. |
| Properties.KeyedEntryMalformedHeaderFaults | index.py:139-140 | A keyed entry with a header that has no `=` raises, because index 1 of the split is out of range. |
| Properties.KeyedEntryChecksSignature | index.py:135-147 | For a keyed entry, the actions run if and only if `Hmac(key, body)` equals the header's signature; otherwise the answer is 403 with nothing started. |
| Properties.GenuineSignatureAccepted | index.py:139-147 | The header `sha1=<Hmac(key, body)>` passes the check and the entry's actions run. |
| Properties.UnkeyedEntryTrusted | index.py:135-155 | For an entry with no key or an empty key, the answer and the started processes do not depend on the signature header, even when it is missing. |
| Properties.ActionsNeedEveryCheck | index.py:53-161 | A process starts only after every check has passed: an admitted push, a parsed configuration and payload, a branch ref and a non-empty entry. When the entry has a key, the signature must also equal the digest of the body. What runs is exactly that entry's actions. |

## Left out

- Flask routing, `abort`, ProxyFix and the `__main__` port handling are HTTP plumbing. Of
  the routing, only HEAD is kept: Flask sends it to the view, which returns None (`Crash(NoReturnValue)`).
- Fetching `https://api.github.com/meta` and the `GHE_ADDRESS` override are taken as the
  input `hookBlocks`. A failing fetch or a response without `hooks` raises in the source;
  that is network I/O and is not modelled.
- Parsing of address and CIDR strings by `ipaddress` is a library call. Blocks arrive as
  parsed networks, so the `ValueError` that `ip_network` raises for a malformed block or
  one with host bits set is not modelled.
- Reading `repos.json` and `json.loads` of the file and of the body are file I/O and
  library parsing. They arrive as a parsed map or payload, or as a failure. Entries that
  are not JSON objects, repos.json or payloads that are not objects, fields holding JSON
  `null` or values of an unexpected type (a non-string key, a string action) are not
  modelled.
- HMAC-SHA1 and the str-to-bytes key encoding are foreign cryptography. `Hmac` is an
  uninterpreted parameter.
- Digest.CompareDigest: models the pure-Python fallback used before Python 2.7.7. From
  2.7.7 on the library `hmac.compare_digest` is used instead. It gives the same answer,
  but raises for non-ASCII `str` arguments, and that case is not modelled. The timing
  claim is represented only by the count of visited pairs; timing itself cannot be
  stated.
- Processes are recorded, not run. `Popen` failing to start a program raises in the
  source, and exit codes are ignored; neither is modelled.
- Strings are sequences of Dafny `char`, which cannot hold a lone surrogate code
  point. A Python `str` from `json.loads` can, for example `"\ud800"` in a key, an
  owner name or a ref. Such inputs cannot be represented in the model.
- Debug output, the `flushfile` stdout wrapper and every `print` are logging only.
