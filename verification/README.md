# OnlyFans API facade core: taxonomy, auth registry, subscription snapshot

This project models the decision logic at the centre of the OnlyFans API
facade of `ultima_scraper_api`, in three parts:

- **Content taxonomy.** This covers three things:
  - `ContentTypeTransformer`, which normalises a name's casing and maps it
    between its singular and plural forms;
  - `convert_api_type_to_key`, which turns a content object into its key;
  - `ContentTypes`, the six collection keys, together with three lookups:
    `response_type_to_key`, `path_to_key` and `convert_to_key`.
- **Media taxonomy.** `MediaTypes` holds four media kinds, each with a
  fixed list of aliases. `find_by_value` maps an alias back to its kind.
- **Auth registry.** The facade's `auths` dictionary is modelled as a
  `map<int, Auth>`. Its operations are:
  - `find_auth`;
  - the deduplicating `login`;
  - the branch decisions of the scoped `login_context`;
  - `remove_auth`;
  - the sweep `remove_invalid_auths`.

  The authenticator, the login-issues endpoint and the transport's
  `close()` are all outside the model. Each enters as an oracle argument
  that gives its answer.
- **Subscription snapshot.** `SubscriptionModel` is built from a raw
  payload, the subscribed user and the subscribing auth. The model covers
  its key-by-key construction, including the early parse of the expiry
  date, and `is_active`.

Modules:

| module | contents |
|---|---|
| `Wrappers` | `Option` and `Result` |
| `Json` | payload values and Python truthiness |
| `Ascii` | ASCII `lower` and `capitalize` |
| `TaxonomyErrors` | the exceptions the taxonomy raises |
| `ContentTaxonomy` | the content taxonomy |
| `MediaTaxonomy` | the media taxonomy |
| `AuthRegistry` | the auth registry |
| `Subscription` | the subscription snapshot |

Each raised exception is an error value: a `Failure`, the scoped login's
`Raises`, or the error field of a removal step. `None` is an `Option`. Source paths below are relative to the repository root.

## Model

| member | source | states |
|---|---|---|
| Ascii.Lower | ultima_scraper_api/apis/onlyfans/onlyfans.py:172 | `str.lower`: same length, each character lower-cased in place, no upper-case letter left |
| Ascii.Capitalize | ultima_scraper_api/apis/onlyfans/onlyfans.py:124 | `str.capitalize`: same length, the first character upper-cased, every later one lower-cased |
| Ascii.CapitalizeCharwise | ultima_scraper_api/apis/onlyfans/onlyfans.py:124 | a string that agrees position by position with the capitalized form of another (first character upper-cased, the rest lower-cased) is that capitalization |
| Ascii.CapitalizeFixesCapitalized | ultima_scraper_api/apis/onlyfans/onlyfans.py:124 | capitalizing a string whose first character is not lower-case and whose other characters are not upper-case leaves it unchanged |
| ContentTaxonomy.NewTransformer | ultima_scraper_api/apis/onlyfans/onlyfans.py:118-125 | the original name is kept; the value is the name itself when it passes the PascalCase test, otherwise its capitalized form, character by character |
| ContentTaxonomy.Plural | ultima_scraper_api/apis/onlyfans/onlyfans.py:127-139 | succeeds exactly when the value is one of the four singular names, and then gives that kind's plural; anything else raises "key not found" |
| ContentTaxonomy.Singular | ultima_scraper_api/apis/onlyfans/onlyfans.py:141-153 | succeeds exactly on the four plural names, giving that kind's singular; anything else raises "key not found" |
| ContentTaxonomy.SingularInvertsPlural | ultima_scraper_api/apis/onlyfans/onlyfans.py:127-153 | `plural` maps s to p if and only if `singular` maps p to s |
| ContentTaxonomy.CanonicalNamesCapitalized | ultima_scraper_api/apis/onlyfans/onlyfans.py:121-125 | capitalizing leaves Story, Post, Message and their plurals unchanged |
| ContentTaxonomy.MassMessageCapitalized | ultima_scraper_api/apis/onlyfans/onlyfans.py:121-125 | capitalizing "MassMessage" yields "Massmessage", and "MassMessages" yields "Massmessages" |
| ContentTaxonomy.TransformerRoundTrip | ultima_scraper_api/apis/onlyfans/onlyfans.py:118-153 | a transformer built from a kind's singular name pluralises to its plural, and one built from the plural singularises back; for MassMessage this holds when both names pass the PascalCase test |
| ContentTaxonomy.MassMessageRoundTripNeedsPascalCase | ultima_scraper_api/apis/onlyfans/onlyfans.py:118-153 | for MassMessage, `plural` of the normalised singular succeeds if and only if "MassMessage" passes the PascalCase test, and `singular` of the normalised plural succeeds if and only if "MassMessages" does |
| ContentTaxonomy.PluralOfMassmessage | ultima_scraper_api/apis/onlyfans/onlyfans.py:127-139 | the spelling "Massmessage" is not a singular name, so `plural` raises |
| ContentTaxonomy.NormalisedSingular | ultima_scraper_api/apis/onlyfans/onlyfans.py:102-109 | the four names passed to the transformer keep their spelling, except MassMessage when the PascalCase test rejects it |
| ContentTaxonomy.ConvertApiTypeToKey | ultima_scraper_api/apis/onlyfans/onlyfans.py:97-116 | story, post, message and mass-message objects give their plural (or normalised singular) name; any other object raises "api content type not found"; a MassMessage rejected by the PascalCase test becomes "Massmessage", whose plural raises "key not found" |
| ContentTaxonomy.ConvertModesAgree | ultima_scraper_api/apis/onlyfans/onlyfans.py:112-116 | whenever the plural mode succeeds, `singular` of its key is exactly what the singular mode returns |
| ContentTaxonomy.GetKeys | ultima_scraper_api/apis/onlyfans/onlyfans.py:155-169 | exactly Stories, Posts, Chats, Messages, Highlights, MassMessages, in declaration order; the list contains the plural of every content kind |
| ContentTaxonomy.KeysDistinctIgnoringCase | ultima_scraper_api/apis/onlyfans/onlyfans.py:157-162 | no two keys have the same lower-case form |
| ContentTaxonomy.FirstLowerMatch | ultima_scraper_api/apis/onlyfans/onlyfans.py:172-174 | the first index whose lower-cased key equals the target, or none when no key does |
| ContentTaxonomy.ResponseTypeToKey | ultima_scraper_api/apis/onlyfans/onlyfans.py:171-174 | a result is a declared key whose lower-case form is the value plus "s"; the result is None exactly when no key has that form |
| ContentTaxonomy.ResponseTypeOfPost | ultima_scraper_api/apis/onlyfans/onlyfans.py:172 | "post" finds Posts |
| ContentTaxonomy.ResponseTypeOfStory | ultima_scraper_api/apis/onlyfans/onlyfans.py:172 | "story" finds nothing, because "storys" is no key's lower-case form |
| ContentTaxonomy.ResponseTypeIsCaseSensitive | ultima_scraper_api/apis/onlyfans/onlyfans.py:172 | a value with any upper-case letter finds nothing, since the value itself is not lower-cased |
| ContentTaxonomy.PartsMatch | ultima_scraper_api/apis/onlyfans/onlyfans.py:178-179 | true exactly when some path part equals the key, ignoring case |
| ContentTaxonomy.FirstKeyInParts | ultima_scraper_api/apis/onlyfans/onlyfans.py:177-180 | the first key, in key order, that matches some part; no earlier key matches; none when no key matches |
| ContentTaxonomy.PathToKey | ultima_scraper_api/apis/onlyfans/onlyfans.py:176-180 | a result is a declared key matching some part, and every key declared before it matches none; the result is None exactly when no key matches |
| ContentTaxonomy.PathToKeyOfDeclaredKey | ultima_scraper_api/apis/onlyfans/onlyfans.py:176-180 | a one-part path naming a declared key, in any casing, resolves to that key |
| ContentTaxonomy.PathToKeyPrefersDeclarationOrder | ultima_scraper_api/apis/onlyfans/onlyfans.py:176-180 | a part equal to "stories", in any position, makes the result Stories |
| ContentTaxonomy.ConvertToKey | ultima_scraper_api/apis/onlyfans/onlyfans.py:182-192 | succeeds exactly when the lower-cased value is story, post or message, giving that kind's plural key; everything else, MassMessage included, raises "convert_to_key not found" |
| ContentTaxonomy.ConvertToKeyExamples | ultima_scraper_api/apis/onlyfans/onlyfans.py:182-192 | "STORY" gives Stories, and "MassMessage" raises |
| MediaTaxonomy.MediaTableDisjoint | ultima_scraper_api/apis/onlyfans/onlyfans.py:195-199 | no alias belongs to two media kinds |
| MediaTaxonomy.GetKeys | ultima_scraper_api/apis/onlyfans/onlyfans.py:201-202 | the keys are Images, Videos, Audios and Texts, in declaration order |
| MediaTaxonomy.LastContaining | ultima_scraper_api/apis/onlyfans/onlyfans.py:205-208 | the last entry whose alias list contains the value, with no later entry containing it; none when no entry contains it |
| MediaTaxonomy.FindByValue | ultima_scraper_api/apis/onlyfans/onlyfans.py:204-211 | succeeds exactly when some alias list contains the value (exact, case-sensitive), giving that list's kind; otherwise raises "No media type found" |
| MediaTaxonomy.FindByValueExamples | ultima_scraper_api/apis/onlyfans/onlyfans.py:204-211 | photo, stream and audio resolve to Images, Videos and Audios; "unknown" and "Photo" raise |
| AuthRegistry.FindAuth | ultima_scraper_api/apis/onlyfans/onlyfans.py:36-37 | the entry stored under the identifier, present exactly when the identifier is a key |
| AuthRegistry.LookupId | ultima_scraper_api/apis/onlyfans/onlyfans.py:50 | dictionary lookup with a payload value: an int finds its entry; True and False find keys 1 and 0; None and strings find nothing; lists and dicts raise |
| AuthRegistry.AddAuth | ultima_scraper_api/apis/onlyfans/onlyfans.py:58 | the record is stored under its id; every other entry is unchanged; every key still names its own record |
| AuthRegistry.AttachIssues | ultima_scraper_api/apis/onlyfans/onlyfans.py:56-57 | the issue report is kept when its "data" entry is truthy and dropped otherwise; a report without "data" raises; nothing else about the record changes |
| AuthRegistry.RegisterAuthed | ultima_scraper_api/apis/onlyfans/onlyfans.py:56-58 | a raising issue request propagates with the registry unchanged; otherwise the issues are attached and, on success, the record is stored under its id; every key still names its own record |
| AuthRegistry.Login | ultima_scraper_api/apis/onlyfans/onlyfans.py:47-59 | empty credentials always build an authenticator; credentials without an id raise; a registered id returns its entry unchanged and builds nothing; an unhashable id raises; on the uncached path the record is registered, with issues attached, only when the authenticator returns one and reports itself authed, otherwise the authenticator's result comes back, or its exception propagates, and the registry is unchanged; an exception from the issue request propagates with the registry unchanged; the only change to the registry is storing the returned record under its id, replacing any earlier entry there; every key still names its own record |
| AuthRegistry.LoginTwiceConverges | ultima_scraper_api/apis/onlyfans/onlyfans.py:47-59 | a second login with the same id returns the record registered by the first, builds no authenticator and leaves one entry for the id |
| AuthRegistry.LoginContext | ultima_scraper_api/apis/onlyfans/onlyfans.py:61-75 | the id is read unconditionally, so credentials without one raise; a registered id is yielded as is and no authenticator is entered; on the uncached path an exception from entering the authenticator propagates; only an entered record that is authed is registered and yielded, otherwise nothing is yielded; an exception from the issue request propagates; in every non-yielding case the registry is unchanged; a yielded record is registered under its id |
| AuthRegistry.LoginAndScopeAgree | ultima_scraper_api/apis/onlyfans/onlyfans.py:47-75 | for non-empty credentials and the same answers from outside, both login forms leave the same registry and build an authenticator in the same cases; a yield is `login`'s return value and a raise is its error |
| AuthRegistry.RemoveAuth | ultima_scraper_api/apis/onlyfans/onlyfans.py:82-84 | a failing close aborts and leaves the registry unchanged; otherwise the passed record's session is closed, and then the entry under its id is deleted, or the deletion raises when there is none; an entry is deleted only after the close returned; when the passed record is the registered one, the closed session is that entry's; entries under other ids are untouched |
| AuthRegistry.RemoveInvalidAuths | ultima_scraper_api/apis/onlyfans/onlyfans.py:77-80 | authed entries always stay; exactly the removed entries were closed, each of them not authed and none whose close raises; the sweep completes exactly when no invalid entry's close fails, and then leaves exactly the authed entries; an abort names an invalid entry whose close failed, and that entry is still registered |
| Subscription.FirstAbsent | ultima_scraper_api/models/subscription_model.py:18-31 | the index of the first key, in reading order, that is missing from the payload |
| Subscription.FirstAbsentAppend | ultima_scraper_api/models/subscription_model.py:18-31 | the first missing key of a split read order lies in the first part, or else in the second part shifted past the first |
| Subscription.CompleteWhenNoneAbsent | ultima_scraper_api/models/subscription_model.py:18-31 | no key of the reading order is missing exactly when all twelve payload keys are present |
| Subscription.ReadAll | ultima_scraper_api/models/subscription_model.py:18-31 | reads keys in order, giving all their values or a key error naming the first missing key |
| Subscription.ParseDate | ultima_scraper_api/models/subscription_model.py:21-23 | succeeds exactly when `fromisoformat` accepts the value, giving its result; otherwise raises the invalid-date error |
| Subscription.NewSubscription | ultima_scraper_api/models/subscription_model.py:12-34 | the first missing key raises a key error, unless an unparsable expiry date (read fourth and parsed immediately) is met before it; construction succeeds exactly when every key is present and the date parses; every attribute is then its payload value or the parsed date, and identity comes from the user |
| Subscription.Assemble | ultima_scraper_api/models/subscription_model.py:15-34 | each attribute holds its payload value, the parsed date, the user's id, username and name, the user, the subscriber and the raw payload |
| Subscription.IsActive | ultima_scraper_api/models/subscription_model.py:36-37 | `bool(self.active)`: a boolean is itself, a number is true when non-zero, None is false, a string or container is true when non-empty |
| Subscription.IsActiveFollowsPayload | ultima_scraper_api/models/subscription_model.py:36-37 | a constructed snapshot is active exactly when the payload's subscribedBy is truthy; for a boolean, exactly when it is true |
| Subscription.MissingSubscribePrice | ultima_scraper_api/models/subscription_model.py:31 | a payload lacking only subscribePrice, with a parsable date, raises a key error naming subscribePrice |

## Left out

- The `dynamic_rules` download in the facade constructor (onlyfans.py:28) is left out: it is network I/O.
- `find_user` (onlyfans.py:39-45) is left out. It only delegates to each auth's own `find_user`, which is not part of this model.
- `create_auth_details` (onlyfans.py:86-95) is left out. It builds `AuthDetails`, which is not part of this model. Credentials are therefore opaque to the authenticator oracle.
- The authenticator's `login`, `is_authed` and `__aenter__`, the record's `is_authed`, `get_login_issues` and the session's `close()` are parameters of the model (oracles). They are not behaviour the model derives. `login`, `__aenter__` and `get_login_issues` may answer with an exception, and `close()` may fail. The `is_authed` tests are taken never to raise.
- `__aexit__` of the authenticator is not modelled: neither what it does to the session nor whether it suppresses an exception raised inside the scope. The scoped login's `Raises` is the exception as the generator raises it.
- `is_pascal_case` is a function parameter, and its definition is not part of this model. The MassMessage results are stated for both of its possible answers.
- `StreamlinedAPI.add_auth` is not part of this model. It is taken to store the record under its `id`.
- Asynchrony, awaiting and concurrent use of the registry are left out. Each operation runs as one atomic step.
- AuthRegistry.LoginContext models only the generator's branch decisions and what it yields. The context-manager machinery is left out: what runs after the `yield` and how `asynccontextmanager` reports a generator that never yields.
- AuthRegistry.RemoveInvalidAuths takes the registry copy in an arbitrary order, not in dictionary insertion order. Its contract therefore does not say which of several failing closes aborts the sweep, only that the error names one of them.
- AuthRegistry.RemoveInvalidAuths: its guarantees about removed and retained entries are stated only for registries whose keys equal their records' ids, the only shape `add_auth` produces.
- AuthRegistry.LoginContext: that a yielded record is registered under its id is stated only for registries whose keys equal their records' ids.
- Ascii.Capitalize: only ASCII letters change case. Python's Unicode case mapping is left out.
- The ContentTypes and MediaTypes lists are the attribute names in declaration order. Iterating `__dict__` is represented by that fixed list.
- `path_to_key` takes the path's `parts` as a sequence of strings. `pathlib` parsing is left out.
- Subscription.NewSubscription: `datetime.fromisoformat` is a parameter returning an opaque instant or nothing. ISO 8601 parsing and the `datetime` structure are left out.
- Floating-point payload values are not among the modelled JSON values.
- `get_api` and `get_authed` (subscription_model.py:39-43) are left out. They only forward to the subscriber, which is not part of this model.
