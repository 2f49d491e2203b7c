# Feature-flag store

A model of the in-memory feature-flag service in `app.py`: a module-level
dictionary `feature_flags` of flags keyed by text or by integer, the two-step
probe `get_flag` that resolves a URL segment to a stored flag, and the six
handlers that list, create, fetch, delete, enable and disable flags.

- `keys.dfy` (module `Keys`): the dictionary's keys, `S(text)` or `I(n)`, kept
  apart as Python keeps `"1"` and `1` apart; `ParseInt` standing for
  `int(text)` and `Render` standing for `str(n)`, with the round trip between them.
- `flag_table.dfy` (module `FlagTable`): the dictionary as a value, a map
  plus its keys in insertion order, with the well-formedness invariant `Valid`
  (each key listed once, the order lists exactly the map's keys, every flag's
  `id` is its key); the probe (`Resolve`, `GetFlag`); and one function per
  handler giving the new dictionary and the outcome, with the properties the
  service relies on proved about them.
- `app.dfy` (module `App`): class `FeatureFlags`, the shared dictionary that the
  handlers change in place. Its methods do what the handlers do step by step,
  and each is proved to produce exactly the state and outcome of the matching
  `FlagTable` function while keeping `Valid`.
- `optional.dfy`: the `Option` datatype.

Outcomes are `Ok(value)` or `Err(e)` with `e` one of `MissingField` (400),
`Conflict` (409) and `NotFound` (404), as `StatusCode` maps them. The request
body of create is a `Body` of three optional fields; a missing or empty body is
`Body(None, None, None)`.

Two behaviours of the code are worth stating plainly:

- The disable route (`app.py:75`) accepts POST only, like the enable route;
  turning a flag off by GET is not possible.
- The dictionary can hold both key forms of one number at once, `S(str(n))`
  and `I(n)`: create compares ids literally (`TextIdBesideIntegerKey`). The
  text key then shadows the integer key for the probe by `str(n)`
  (`IntegerKeyShadowed`), though the integer-keyed flag stays reachable through
  another numeral such as `+7`, or `-03` for `-3` (`IntegerKeyByAlias`), and a delete by `str(n)`
  removes the integer key while the text-keyed flag stays reachable
  (`DeleteThenLookupBothForms`). With only one form stored, a flag is found by
  the text of its own id (`GetFlagOwnId`) and a delete followed by a lookup
  finds nothing (`DeleteThenLookupOneForm`).

The module-level methods at the end of `app.dfy` are worked examples, not
separate operations: `SeedSession` and the methods it calls run the seed
scenarios against a freshly constructed `FeatureFlags`, while `IntegerIdSession`
and `IntegerIdDelete` are stand-alone examples of an integer id on any dictionary
that meets their preconditions.

## Model

| member | source | states |
|---|---|---|
| `Keys.ParseInt` | app.py:12-15 | a text parses exactly when it is non-empty and is either digits only or a `+` or `-` followed by at least one digit and digits only; a negative result comes from a leading minus |
| `Keys.NatToDigits` | app.py:13 | the decimal numeral of a natural number is non-empty, all digits, and has no leading zero unless it is `0` |
| `Keys.ParseRender` | app.py:12-14 | parsing the text rendering of any integer gives that integer back, so an integer key is reachable from a URL |
| `Keys.StripZerosValue` | app.py:13 | helper: dropping leading zeros from a numeral gives a canonical numeral of the same value |
| `Keys.CanonicalDigits` | app.py:13 | helper: a canonical numeral is the rendering of its own value |
| `Keys.ParseNormalizes` | app.py:13 | the reverse round trip: rendering the integer an accepted text parses to gives that text with `+` and leading zeros dropped and `-0` written `0` |
| `Keys.AliasParses` | app.py:13 | every integer has a second numeral, `+n` or `-0n`, that `int()` maps to the same integer and that differs from `str(n)` |
| `Keys.NumeralAliases` | app.py:13 | `"7"`, `"07"` and `"+7"` all parse to 7 and `"-0"` to 0, while `"x7"`, `"-"`, `"7a"`, `"1.5"` and `"0x7"` do not parse |
| `FlagTable.StatusCode` | app.py:39-55 | every error is answered with a 4xx status code: 400 exactly for missing fields, 409 exactly for a conflict, 404 exactly for not found |
| `FlagTable.StatusCodesDistinct` | app.py:39-55 | no two errors share a status code |
| `FlagTable.Seed` | app.py:19-30 | the starting dictionary holds two flags and satisfies the invariant, every flag's id equal to its key |
| `FlagTable.Resolve` | app.py:6-16 | the key the probe lands on is always a stored key |
| `FlagTable.GetFlag` | app.py:6-16 | the probe finds a flag exactly when the text key is stored or the text parses to a stored integer key, and what it finds is a stored flag |
| `FlagTable.TextKeyWins` | app.py:8-10 | when the text key is stored the probe returns its flag, whether or not the parsed integer key is stored too |
| `FlagTable.IntegerFallback` | app.py:11-16 | with the text key absent, the probe returns the flag of the parsed integer key when it is stored, and nothing when the text does not parse or that key is absent |
| `FlagTable.GetFlagOwnId` | app.py:6-16 | every stored flag is found by the text form of its own id, unless an integer id's rendering is also a stored text key |
| `FlagTable.IntegerKeyShadowed` | app.py:8-14 | with both `S(str(n))` and `I(n)` stored, the probe for `str(n)` returns the text-keyed flag and never the integer-keyed one |
| `FlagTable.IntegerKeyByAlias` | app.py:12-14 | an integer-keyed flag, of either sign, is found through a numeral other than `str(n)` when that text is not itself a key |
| `FlagTable.DistinctCount` | app.py:19 | helper: a sequence of distinct keys has as many elements as its set of keys |
| `FlagTable.List` | app.py:33-34 | the listing holds one entry per stored flag, position by position in insertion order, and contains exactly the stored flags |
| `FlagTable.Create` | app.py:37-49 | success exactly when every field is present and the literal id is not yet a key; missing field exactly when a field is absent; conflict exactly when the literal id is already a key; the store is unchanged on both errors; on success exactly one new key equal to the supplied id, its flag carries the supplied fields, all other entries stay, the key is appended to the order, the invariant is kept and the size grows by one |
| `FlagTable.CreateAppendsToList` | app.py:44-49 | after a successful create the listing is the old listing followed by the new flag |
| `FlagTable.TextIdBesideIntegerKey` | app.py:42-45 | creating text id `str(n)` while `I(n)` is stored succeeds, both keys stay, and the probe then finds the new text-keyed flag |
| `FlagTable.Without` | app.py:60-64 | removing a key from the order keeps every other key, drops that key, keeps distinctness, and changes nothing when the key is absent |
| `FlagTable.IndexOf` | app.py:60-64 | helper: the position found holds the key and is its first occurrence |
| `FlagTable.WithoutAt` | app.py:60-64 | in a distinct order, removing a present key takes out exactly its one position and keeps the rest in order |
| `FlagTable.DeleteTarget` | app.py:57-64 | the key delete removes is the parsed integer key when the text parses and that key is stored, and the text key otherwise; whenever the probe finds a flag that key is stored, so the `del` never raises |
| `FlagTable.Delete` | app.py:52-65 | not found exactly when the probe fails, with the store unchanged; otherwise the integer key when the text parses and that key is stored, else the text key, is removed from map and order and nothing else changes; the invariant is kept and the size drops by one |
| `FlagTable.DeleteKeepsListOrder` | app.py:57-64 | after a delete the listing is the old listing with the removed key's one position taken out |
| `FlagTable.RemovalKeepsListOrder` | app.py:60-64 | helper: removing a stored key from map and order keeps the invariant and drops exactly that key's position from the listing |
| `FlagTable.ProjectRemoval` | app.py:60-64 | helper: dropping one position of the key order drops the same position of the listed flags |
| `FlagTable.DeleteThenLookupOneForm` | app.py:53-64 | when exactly one key form of the text is stored, delete succeeds and a later probe for the same text finds nothing |
| `FlagTable.DeleteThenLookupBothForms` | app.py:57-60 | when both key forms are stored, delete removes the integer key and a later probe still finds the text-keyed flag |
| `FlagTable.SetEnabled` | app.py:69-72 | not found exactly when the probe fails, with the store unchanged; otherwise the found flag gets the new `enabled` and keeps its id and description, other entries, the key set and the order stay, and the invariant is kept |
| `FlagTable.SetEnabledIdempotent` | app.py:69-72 | setting the same value twice gives the same store and outcome as setting it once |
| `FlagTable.EnableThenDisable` | app.py:68-81 | enable then disable answers with the original flag disabled, id and description unchanged, and the probe then finds that flag |
| `FlagTable.EnableDisableRoundTrip` | app.py:68-81 | enable then disable of a flag that was disabled restores the whole dictionary |
| `FlagTable.SetEnabledKeepsList` | app.py:72 | after enable or disable the listing has the same length and differs only in the found flag's `enabled` |
| `FlagTable.SeedDisable` | app.py:76-81 | disabling `beta_dashboard` on the seed answers with it disabled and its description unchanged |
| `FlagTable.SeedMissingFields` | app.py:39-40 | a body with only an id is refused as missing fields and the store stays the seed |
| `FlagTable.SeedDuplicate` | app.py:42-43 | creating `beta_dashboard` again is a conflict and the store stays the seed |
| `FlagTable.SeedDeleteUnknown` | app.py:53-55 | deleting `999`, stored under neither form, is not found and the store stays the seed |
| `App.FeatureFlags.constructor` | app.py:19-30 | the dictionary starts as the seed and satisfies the invariant |
| `App.FeatureFlags.ListFeatureFlags` | app.py:32-34 | the response lists every stored flag once, in insertion order, and nothing else |
| `App.FeatureFlags.GetFeatureFlagById` | app.py:83-88 | not found exactly when the probe finds no key; a found flag is the one stored under its own id, which is the text key or, with the text key absent, the parsed integer key |
| `App.FeatureFlags.CreateFeatureFlag` | app.py:36-49 | the new dictionary and the response are those of `FlagTable.Create`, and the invariant is kept |
| `App.FeatureFlags.Del` | app.py:60 | `del` needs the key to be present; the key leaves the map and the order and nothing else changes |
| `App.FeatureFlags.DeleteFeatureFlag` | app.py:51-65 | the new dictionary and the response are those of `FlagTable.Delete`, and the invariant is kept |
| `App.FeatureFlags.SetEnabled` | app.py:69-72 | the in-place update of the found flag gives the dictionary and response of `FlagTable.SetEnabled`, and the invariant is kept |
| `App.FeatureFlags.EnableFeatureFlag` | app.py:67-73 | the dictionary and response are those of `FlagTable.SetEnabled` with `true` |
| `App.FeatureFlags.DisableFeatureFlag` | app.py:75-81 | the dictionary and response are those of `FlagTable.SetEnabled` with `false` |

## Left out

- Flask: routing, `request.get_json`, `jsonify`, `abort` and `app.run` (app.py:1-3, 90-91) are not modelled; responses are the `Result` values, and `StatusCode` gives the HTTP code of each error. Success codes (200, 201, 204) are not modelled.
- A request body that is not JSON at all is the web framework's error, not the store's; an absent or empty body is modelled as a body with every field absent.
- Concurrency: the dictionary is shared between requests without a lock; the model runs one handler at a time.
- Ids other than `str` and `int`: Python's `True == 1` collision, float ids such as `1.0`, `null`, and unhashable ids that raise `TypeError` at app.py:42 are outside `Key`.
- `enabled` and `description` of another JSON type than boolean and string are stored by the source as given; the model types them as `bool` and `string`.
- Keys.ParseInt: accepts only an optional `+` or `-` followed by ASCII digits; Python's `int()` also strips surrounding whitespace and accepts underscores between digits and non-ASCII decimal digits, which the model rejects.
- A JSON body that is not an object escapes the checks: an array or a string containing `"id"`, `"enabled"` and `"description"` passes the field test at app.py:39 and then raises `TypeError` at app.py:41, and a non-zero number or `true` passes `not data` and raises `TypeError` at app.py:39 in `'id' in data`; each is a 500 response. `Body` describes only JSON objects and cannot express these bodies.
- The truthiness test `if flag:` (app.py:9, 54, 70, 78, 86) is modelled as presence: every stored flag is a non-empty dict.
- Aliasing: the source answers with the very dict it stores, and enable/disable mutate that dict; the model stores and returns values, which gives the same responses because each response is serialised before the next request.
