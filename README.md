# NickServ account migration and X3 webhook: a Dafny model

This project models two parts of the X3 services repository, which
migrates IRC accounts into Keycloak:

- **The analysis script's parsers** (`scripts/analyze-password-hashes.py`).
  - `detect_algorithm` sorts a stored password hash into one of eight scheme
    tags.
  - `parse_pbkdf2_iterations` and `parse_bcrypt_cost` read a scheme's work
    factor.
  - `parse_saxdb_nickserv` reads the NickServ accounts out of a SAXDB dump.
    It finds the `"NickServ"` marker and the next opening brace. A
    depth-counting scan then finds the section's end. Finally the account and
    property regular expressions are run over the section body. Structural
    entries are dropped, and so are accounts without properties.
- **The Keycloak event listener's decision logic**
  (`keycloak-webhook-spi/.../WebhookEventListenerProvider.java`).
  - Both `onEvent` gates: a URL must be configured, and the X3 relevance
    filter applies unless `sendAllEvents` is set.
  - The two switch expressions that label user events.
  - The retry loop of `sendWithRetry`, with its doubling delay capped at
    30 seconds.
  - The rules of `sendWebhook`: a status of 400 or more is a failure, and the
    `X-Webhook-Secret` header is sent only for a non-empty secret.

Files:

- `text.dfy`: `Option`, plus the character classes and scanning primitives.
  - Python's `\s` is the set `Py_UNICODE_ISSPACE` accepts.
  - `Span` is a greedy `[...]*` run.
  - `Find` is `str.find`.
  - `DecimalValue` is the value of a string of digits. `IntOf` in
    `hash_classifier.dfy` adds the ValueError that `int()` raises on more than
    4300 digits.
- `hash_classifier.dfy`: the classifier and the two work-factor parsers.
  It also has a module of examples.
- `saxdb.dfy`: the NickServ parser.
  - Each regular expression is a scanner tried at the start of the remaining
    text. `finditer` tries every position from left to right and continues
    after each match.
  - The brace scan, the property loop and the entry loop are methods, each
    proved equal to its specification function.
- `saxdb_facts.dfy`: what the two dictionaries hold, where the brace scan
  stops, and when nothing is found.
- `saxdb_render.dfy`: writing back.
  - Each scanner matches exactly the text it describes.
  - A NickServ section written in one fixed layout is read back as the
    accounts it was written from.
- `saxdb_layout.dfy`: the same round trip for any white space, terminators
  and quote-free, brace-free separators.
  - Each block holds property matches only, and names and values contain no
    braces.
  - This covers the one-line block of line 120, and an entry holding a
    sub-record when it is the first entry of the section.
  - It also covers an entry whose block ends with a nested sub-record: the
    entries after it are still read.
- `webhook.dfy`: the listener's filters, labels, headers and retry loop.
  - The outcome of each HTTP attempt is a parameter, `respond(k)` for
    attempt `k`.

## Model

SCRIPT = `scripts/analyze-password-hashes.py`;
LISTENER = `keycloak-webhook-spi/src/main/java/net/afternet/keycloak/webhook/WebhookEventListenerProvider.java`
(the table cells spell both paths out).

| member | source | states |
|---|---|---|
| HashClassifier.DetectAlgorithmFits | scripts/analyze-password-hashes.py:37-70 | `detect_algorithm` returns scheme `s` exactly when the hash has `s`'s own format. Each format is stated without the order of the tests, and "unknown" means no format fits. |
| HashClassifier.FormatsDisjoint | scripts/analyze-password-hashes.py:39-68 | No hash has the format of two schemes, so the order of the tests never decides the tag. |
| HashClassifier.Signature | scripts/analyze-password-hashes.py:43-68 | Each format fixes the characters that tell it apart: length, `$`, the `2`/`5` of sha256/sha512, the bcrypt `$2?$`, and hex digits. |
| HashClassifier.EmptyIffEmptyString | scripts/analyze-password-hashes.py:39-40 | "empty" is returned for the empty string and for nothing else. |
| HashClassifier.PrefixedNeverMd5 | scripts/analyze-password-hashes.py:42-68 | A hash starting with `$pbkdf2-`, `$argon2` or `$2a$`/`$2b$`/`$2y$` is never classified as MD5. |
| HashClassifier.IterationsAt | scripts/analyze-password-hashes.py:75 | A match of `\$i=(\d+)\$` at a position yields a non-empty digit string. The text begins with `$i=`, those digits and `$`. |
| HashClassifier.IterationsAtComplete | scripts/analyze-password-hashes.py:75 | `$i=` followed by any non-empty digits and `$` is matched, with those digits as the group. |
| HashClassifier.SearchIterationsFindsFirst | scripts/analyze-password-hashes.py:75-76 | `re.search` finds the leftmost `$i=<digits>$` segment, or there is none anywhere. |
| HashClassifier.Pbkdf2IterationsSpec | scripts/analyze-password-hashes.py:73-78 | The result is None exactly when no segment exists. Otherwise the first segment's digits decide: their decimal value when there are at most 4300 of them, and the ValueError `int()` raises (line 77) when there are more. |
| HashClassifier.BcryptCostDigits | scripts/analyze-password-hashes.py:83 | A match requires the bcrypt prefix, then a non-empty run of digits, then `$`. |
| HashClassifier.BcryptCostComplete | scripts/analyze-password-hashes.py:81-86 | `$2a$`/`$2b$`/`$2y$`, a non-empty run of digits and `$` give those digits. The cost is their decimal value when there are at most 4300 of them, and the ValueError `int()` raises (line 85) when there are more. |
| HashClassifier.SearchSkips | scripts/analyze-password-hashes.py:75 | `re.search` passes over text without `$`: the result is the search of what follows. |
| HashClassifierExamples.Pbkdf2IterationsExample | scripts/analyze-password-hashes.py:73-78 | `$pbkdf2-sha256$i=29000$abc$def` has 29000 iterations. |
| HashClassifierExamples.DigitLimitExamples | scripts/analyze-password-hashes.py:73-86 | 4301 digits make `int()` raise ValueError in both parsers; 4300 digits are still converted. |
| HashClassifier.TagInjective | scripts/analyze-password-hashes.py:37-70 | The eight tag strings are distinct, so a reported tag names one scheme. |
| Text.Find | scripts/analyze-password-hashes.py:98 | `str.find`: the first occurrence at or after `start`, or None when there is none. |
| Saxdb.RawSameKind | scripts/analyze-password-hashes.py:141 | For two values of the same kind, the stored strings are equal exactly when the values are. |
| Saxdb.RawConfusable | scripts/analyze-password-hashes.py:141 | A quoted value and a list are stored as the same string only when the quoted text is written in parentheses. |
| Saxdb.QuotedAt | scripts/analyze-password-hashes.py:138 | `"([^"]*)"`: the group contains no quote, and the quoted group begins the text. |
| Saxdb.ListAt | scripts/analyze-password-hashes.py:138 | `\([^)]*\)`: the value starts with `(`, ends with `)` and has no `)` inside. It begins the text. |
| Saxdb.ValueAt | scripts/analyze-password-hashes.py:138 | Either alternative of the value yields a well-formed value whose written form begins the text. |
| Saxdb.TerminatorLength | scripts/analyze-password-hashes.py:138 | `;?\s*` consumes an optional semicolon followed by white space. |
| Saxdb.PropertyRestAt | scripts/analyze-password-hashes.py:138 | A match of `\s+`, value and terminator yields at least one white-space character, a well-formed value and a well-formed terminator. |
| Saxdb.PropertyRestAtPrefix | scripts/analyze-password-hashes.py:138 | Those three pieces are consumed: they follow each other from the start of the text. |
| Saxdb.MatchProperty | scripts/analyze-password-hashes.py:138 | A property match has a non-empty, quote-free key and valid pieces, and the text it consumed begins the text. |
| Saxdb.BlockAt | scripts/analyze-password-hashes.py:124 | A match of `\{\s*([^}]+)\s*\};` yields white space before the group and a non-empty group without `}`. |
| Saxdb.BlockAtPrefix | scripts/analyze-password-hashes.py:124 | The matched block is a prefix of the text: `{`, the white space, the group, then `};`. |
| Saxdb.MatchEntry | scripts/analyze-password-hashes.py:123-126 | An entry match has a non-empty, quote-free name and a valid block, and the text it consumed begins the text. |
| Saxdb.ScanEnd | scripts/analyze-password-hashes.py:108-116 | The brace scan's stop position lies between its start and the end of the text. |
| Saxdb.ScanSection | scripts/analyze-password-hashes.py:108-116 | The `while` loop over `depth` and `pos` stops where `ScanEnd` says. |
| Saxdb.ParseProperties | scripts/analyze-password-hashes.py:137-142 | The loop `props[key] = value` over the property matches builds `Assign` of those matches. |
| Saxdb.FindSection | scripts/analyze-password-hashes.py:97-118 | The two `find` calls, the scan and the slice yield `SectionBody`. The result is None when the marker or the brace is missing. |
| Saxdb.CollectAccounts | scripts/analyze-password-hashes.py:128-145 | The loop over entry matches skips structural names and drops empty property maps. It builds `Collect` of the matches. |
| Saxdb.ParseNickServ | scripts/analyze-password-hashes.py:89-147 | `parse_saxdb_nickserv` returns `NickServAccounts(content)`. |
| SaxdbFacts.AssignSpec | scripts/analyze-password-hashes.py:139-142 | A property map holds exactly the matched keys. A repeated key keeps the value of its last match. |
| SaxdbFacts.CollectKeysFrom | scripts/analyze-password-hashes.py:128-145 | Every reported account name comes from an entry that is not structural and has properties. |
| SaxdbFacts.CollectKeysTo | scripts/analyze-password-hashes.py:128-145 | Every entry that is not structural and has properties is reported. |
| SaxdbFacts.CollectLastWins | scripts/analyze-password-hashes.py:144-145 | A repeated account name keeps the properties of its last kept entry. |
| SaxdbFacts.CollectShape | scripts/analyze-password-hashes.py:132-145 | No reported name is structural, and no reported property map is empty. |
| SaxdbFacts.NickServAccountsShape | scripts/analyze-password-hashes.py:132-145 | The same, for the whole parser's result. |
| SaxdbFacts.DepthCounts | scripts/analyze-password-hashes.py:109-116 | The depth the scan tracks equals the count of `{` minus the count of `}`. |
| SaxdbFacts.ScanEndSpec | scripts/analyze-password-hashes.py:108-116 | The scan stops at the first position where the depth reaches zero, or at the end of the text if it never does. |
| SaxdbFacts.ScanEndAt | scripts/analyze-password-hashes.py:108-116 | A position where the depth first reaches zero is where the scan stops. |
| SaxdbFacts.SectionScan | scripts/analyze-password-hashes.py:108-118 | No prefix of the sliced body drops below depth zero. A closed section ends with `}`, which the slice omits, and its body is balanced. An unclosed section runs to the end of the text, and the slice still drops the last character. |
| SaxdbFacts.SectionScanCloses | scripts/analyze-password-hashes.py:108-118 | A balanced body followed by `}` is exactly what the scan and the slice return. |
| SaxdbFacts.NoMarkerNoAccounts | scripts/analyze-password-hashes.py:98-100 | Without `"NickServ"` the result is empty. |
| SaxdbFacts.NoBraceNoAccounts | scripts/analyze-password-hashes.py:103-105 | Without a `{` after the first marker the result is empty. |
| SaxdbRender.QuotedAtOf | scripts/analyze-password-hashes.py:138 | A quoted text without inner quotes is matched, and the group is its content. |
| SaxdbRender.ListAtOf | scripts/analyze-password-hashes.py:138 | A parenthesised list without inner `)` is matched verbatim, parentheses included. |
| SaxdbRender.ValueAtOf | scripts/analyze-password-hashes.py:138 | Every well-formed value is read back as itself. This includes the empty quoted value `""`. |
| SaxdbRender.TerminatorLengthOf | scripts/analyze-password-hashes.py:138 | The terminator consumes exactly the written `;` and white space when the next character is not white space; an empty terminator must not be followed by `;`. |
| SaxdbRender.PropertyRestAtOf | scripts/analyze-password-hashes.py:138 | White space, value and terminator are read back as written. |
| SaxdbRender.MatchPropertyOf | scripts/analyze-password-hashes.py:138 | A valid property's text is matched as that property. |
| SaxdbRender.PropertyMatchesOf | scripts/analyze-password-hashes.py:139 | After a property's text, `finditer` continues right after it. |
| SaxdbRender.PropertyMatchesRendered | scripts/analyze-password-hashes.py:138-139 | Written property lines yield one match each, in order. |
| SaxdbRender.PropertiesRoundTrip | scripts/analyze-password-hashes.py:137-142 | Written properties are read back. The keys are exactly the written keys, and each key has the value written last. |
| SaxdbRender.DuplicateKeyLastWins | scripts/analyze-password-hashes.py:142 | A key written twice keeps its second value. |
| SaxdbRender.BlockAtOf | scripts/analyze-password-hashes.py:124 | When the group does not start with white space, the block is read back with the written leading white space and group. |
| SaxdbRender.BlockAtBlank | scripts/analyze-password-hashes.py:124 | When the block holds only white space, the group backtracks to that white space's last character. |
| SaxdbRender.MatchEntryAt | scripts/analyze-password-hashes.py:124 | The entry pattern at a quoted name and white space gives the block's result. |
| SaxdbRender.MatchEntryOf | scripts/analyze-password-hashes.py:124 | A valid entry's text is matched as that entry. |
| SaxdbRender.MatchEntryBlank | scripts/analyze-password-hashes.py:124 | An entry whose block is only white space is matched with that white space's last character as its group. |
| SaxdbRender.EntryMatchesOf | scripts/analyze-password-hashes.py:128 | A written entry yields one entry match, and `finditer` continues after it. |
| SaxdbRender.EntryMatchesRendered | scripts/analyze-password-hashes.py:123-128 | Written entries yield one entry match each, in order. |
| SaxdbRender.EntryOfKept | scripts/analyze-password-hashes.py:132-145 | A written entry is kept exactly when its name is not structural and it has properties. Its properties read back as written. |
| SaxdbRender.EntriesBalanced | scripts/analyze-password-hashes.py:108-116 | Written entries are balanced, and no prefix of them closes the section. |
| SaxdbRender.DumpSection | scripts/analyze-password-hashes.py:97-118 | Take a dump with text before the marker in which `"NickServ"` does not occur earlier, text without `{` before the brace, a balanced body and any text after it. The body found is exactly that body. |
| SaxdbRender.DocumentAccounts | scripts/analyze-password-hashes.py:89-147 | The accounts read from a written dump are the fold over its written entries. |
| SaxdbRender.SectionRoundTrip | scripts/analyze-password-hashes.py:89-147 | In one fixed layout, a written NickServ section reads back as its accounts. The names are those of non-structural entries with properties, and a repeated name keeps its last such entry. Entries without properties are included. |
| SaxdbLayout.PropsTextMatches | scripts/analyze-password-hashes.py:138-139 | Any sequence of valid property matches, written side by side with any white space and terminators, is read back as exactly that sequence. |
| SaxdbLayout.SkipUnquoted | scripts/analyze-password-hashes.py:128 | Text without a quote holds no entry match, so `finditer` passes over it. |
| SaxdbLayout.LayoutMatched | scripts/analyze-password-hashes.py:124-128 | An entry in any layout, with any quote-free text before it, is read back as that one entry, and scanning continues after its `};`. |
| SaxdbLayout.SectionMatched | scripts/analyze-password-hashes.py:123-128 | Entries in any layout are read back one match each, in order. |
| SaxdbLayout.LayoutKept | scripts/analyze-password-hashes.py:132-145 | An entry with properties becomes an account exactly when its name is not structural. Its properties are those of its own matches. |
| SaxdbLayout.SectionBalanced | scripts/analyze-password-hashes.py:108-116 | Entries in any layout are balanced, and no prefix of them closes the section. |
| SaxdbLayout.LayoutAccounts | scripts/analyze-password-hashes.py:89-147 | A dump whose section holds entries in any layout is read as the fold over those entries. |
| SaxdbLayout.LayoutRoundTrip | scripts/analyze-password-hashes.py:89-147 | In any layout, the account names are those of the non-structural entries. A name given twice keeps its last entry's properties. |
| SaxdbLayout.OneLineWritable | scripts/analyze-password-hashes.py:120 | The one-line block of the comment at line 120 is one of the layouts `LayoutRoundTrip` covers. |
| SaxdbLayout.OneLineText | scripts/analyze-password-hashes.py:120 | Its text is `"name" { "key1" "value1"; "key2" "value2"; };`. |
| SaxdbLayout.NestedMatched | scripts/analyze-password-hashes.py:124-128 | An entry whose block ends with a nested `"sub" { ... };` gives one match, whose group stops at the sub-record's `}`. Scanning resumes after the outer `};`. |
| SaxdbLayout.NestedBalanced | scripts/analyze-password-hashes.py:108-116 | That entry, with its two pairs of braces, is balanced, and no prefix of it closes the section. |
| SaxdbLayout.NestedAccounts | scripts/analyze-password-hashes.py:89-147 | A section whose first entry holds a sub-record and continues with entries in any layout is read as the fold over all their matches. |
| SaxdbLayout.NestedSiblings | scripts/analyze-password-hashes.py:89-147 | When the section's first entry holds a sub-record, the entries after it are still returned. Each non-structural one that is last with its name comes back with its own properties. |
| Webhook.ResourceTypeOf | keycloak-webhook-spi/src/main/java/net/afternet/keycloak/webhook/WebhookEventListenerProvider.java:191-198 | The switch is total. CREDENTIAL is returned exactly for the four credential events, USER_SESSION exactly for LOGIN/LOGOUT/LOGIN_ERROR, and USER for every other event. |
| Webhook.OperationTypeOf | keycloak-webhook-spi/src/main/java/net/afternet/keycloak/webhook/WebhookEventListenerProvider.java:203-211 | The switch is total. DELETE is returned exactly for REMOVE_CREDENTIAL and CREATE exactly for REGISTER. UPDATE is returned exactly for UPDATE_CREDENTIAL, UPDATE_PASSWORD, RESET_PASSWORD and UPDATE_PROFILE, and ACTION for the rest. |
| Webhook.UnconfiguredForwardsNothing | keycloak-webhook-spi/src/main/java/net/afternet/keycloak/webhook/WebhookEventListenerProvider.java:76-101 | With a null or empty URL, neither overload sends. |
| Webhook.SendAllForwardsEverything | keycloak-webhook-spi/src/main/java/net/afternet/keycloak/webhook/WebhookEventListenerProvider.java:82-107 | With a URL and `sendAllEvents`, every event is sent. |
| Webhook.DefaultFilterForwardsCredentialChanges | keycloak-webhook-spi/src/main/java/net/afternet/keycloak/webhook/WebhookEventListenerProvider.java:53-85 | Under the default filter, a user event is sent exactly when it is labelled CREDENTIAL. Its operation is then UPDATE or DELETE. |
| Webhook.DefaultFilterForwardsX3Resources | keycloak-webhook-spi/src/main/java/net/afternet/keycloak/webhook/WebhookEventListenerProvider.java:45-50 | Under the default filter, an admin event is sent exactly when its resource is USER, GROUP, GROUP_MEMBERSHIP or REALM_ROLE_MAPPING. |
| Webhook.RequestHeaders | keycloak-webhook-spi/src/main/java/net/afternet/keycloak/webhook/WebhookEventListenerProvider.java:252-261 | The request always carries `Content-Type: application/json`. `X-Webhook-Secret` is present exactly when the secret is non-null and non-empty, and it then carries the secret. |
| Webhook.DelayClosedForm | keycloak-webhook-spi/src/main/java/net/afternet/keycloak/webhook/WebhookEventListenerProvider.java:224-239 | The wait after failed attempt `k` is `min(1000 * 2^k, 30000)` ms. |
| Webhook.DelayBounds | keycloak-webhook-spi/src/main/java/net/afternet/keycloak/webhook/WebhookEventListenerProvider.java:239 | Waits are at least 1000 ms, never decrease and never exceed 30000 ms. |
| Webhook.SendWithRetry | keycloak-webhook-spi/src/main/java/net/afternet/keycloak/webhook/WebhookEventListenerProvider.java:223-271 | At most `maxRetries + 1` attempts are made (none for a negative count). The first delivery (status below 400) ends the loop, a delivery happens exactly when one of the allowed attempts succeeds, and otherwise every allowed attempt is made. The waits follow `Delay`, with none after the last attempt. |

## Left out

- `read_saxdb_from_docker`, `read_saxdb_from_file`, `main` and the report
  printing: subprocess calls, file input, argument parsing and output.
- `formatUserEvent` and `formatAdminEvent`: JSON construction through Gson.
  Only the two labelling switches they call are modelled.
- `HttpClient` (connect and request time-outs), `CompletableFuture.runAsync`,
  and logging: network and concurrency. The outcome of each attempt is the
  parameter `respond`. A status of 400 or more counts as a failure, and so
  does any exception `send` throws (`Failed`).
- The `Thread.sleep` interruption branch of `sendWithRetry`: an interrupt
  ends the loop early, and that is not modelled. The waits are returned as a
  sequence instead of being slept.
- `ScramCredentialProvider`, `ScramPasswordPolicyProvider`, the factories
  and `WebhookConfig`'s environment lookup: JCE calls and Keycloak SPI
  wiring. The configuration is the datatype `WebhookConfig`, and Java's
  `null` is `None`.
- Python's `\d` also accepts non-ASCII decimal digits. The model accepts
  `0`-`9` only.
- IntOf: fixes CPython's default limit of 4300 digits. The interpreter's
  `-X int_max_str_digits` option, `PYTHONINTMAXSTRDIGITS` and
  `sys.set_int_max_str_digits` can change it. Interpreters older than 3.11
  (and 3.10.7, 3.9.14, 3.8.14) have no limit.
- A property value is stored by the script as a plain string. The model tags
  it (`Scalar` or `RawList`), and `Raw` gives the string the script stores.
  `RawSameKind` and `RawConfusable` say what the tag adds: a quoted value
  written like a list is stored as the same string as that list.
- Python's `accounts` and `props` dicts keep insertion order, and a
  re-assigned key keeps its first position. The model returns unordered
  `map`s, so that order is not modelled.
- SaxdbRender.SectionRoundTrip: covers one fixed layout only. Other layouts
  are covered by `SaxdbLayout.LayoutRoundTrip` and `SaxdbLayout.NestedSiblings`.
  - `LayoutRoundTrip` does not cover entries without properties, which only
    the fixed layout includes.
  - `NestedSiblings` does not state the properties read for the entry that
    holds the sub-record.
  - A sub-record followed by further properties of its parent is not
    covered either.
- Java's 32-bit `int` does not matter here. The delay never exceeds 30000,
  and the loop returns at `attempt == maxRetries` before the counter could
  wrap.
- Two behaviours of the code worth noting:
  - a repeated key or account name keeps its LAST occurrence (assignment at
    line 142 and line 145);
  - the bcrypt cost pattern accepts any number of digits (`\d+`, line 83),
    and `int()` then raises ValueError on more than 4300. Nothing catches it
    at lines 205 and 209, so the script stops there.
