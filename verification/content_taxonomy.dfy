/** The content taxonomy of the OnlyFans API facade: the name transformer
    with its singular/plural tables, the dispatch from content objects to
    keys, and the `ContentTypes` key list with its three lookups. */
module ContentTaxonomy {
  import opened Wrappers
  import opened Ascii
  import opened TaxonomyErrors

  /** The four canonical content kinds. */
  datatype ContentKey = Story | Post | Message | MassMessage

  function SingularName(k: ContentKey): string {
    match k
    case Story => "Story"
    case Post => "Post"
    case Message => "Message"
    case MassMessage => "MassMessage"
  }

  function PluralName(k: ContentKey): string {
    match k
    case Story => "Stories"
    case Post => "Posts"
    case Message => "Messages"
    case MassMessage => "MassMessages"
  }

  function Projection(k: ContentKey, makePlural: bool): string {
    if makePlural then PluralName(k) else SingularName(k)
  }

  // ---------------------------------------------------------------------
  // ContentTypeTransformer
  // ---------------------------------------------------------------------

  /** A name as given (`original`) and in its normalised casing (`value`). */
  datatype ContentTypeTransformer = ContentTypeTransformer(original: string, value: string)

  /** The constructor. `isPascalCase` is the repository's own casing test,
      which this model leaves uninterpreted. */
  function NewTransformer(raw: string, isPascalCase: string -> bool): (t: ContentTypeTransformer)
    ensures t.original == raw
    ensures isPascalCase(raw) ==> t.value == raw
    ensures !isPascalCase(raw) ==>
      && |t.value| == |raw|
      && (|raw| > 0 ==> t.value[0] == UpperChar(raw[0]))
      && (forall i :: 1 <= i < |raw| ==> t.value[i] == LowerChar(raw[i]))
  {
    ContentTypeTransformer(raw, if isPascalCase(raw) then raw else Capitalize(raw))
  }

  /** `plural()`: defined exactly on the four singular names. */
  function Plural(t: ContentTypeTransformer): (r: Result<string, TaxonomyError>)
    ensures r.Success? <==> exists k :: t.value == SingularName(k)
    ensures forall k :: t.value == SingularName(k) ==> r == Success(PluralName(k))
    ensures r.Failure? ==> r.error == KeyNotFound
  {
    match t.value
    case "Story" => assert t.value == SingularName(Story); Success("Stories")
    case "Post" => assert t.value == SingularName(Post); Success("Posts")
    case "Message" => assert t.value == SingularName(Message); Success("Messages")
    case "MassMessage" => assert t.value == SingularName(MassMessage); Success("MassMessages")
    case _ => Failure(KeyNotFound)
  }

  /** `singular()`: defined exactly on the four plural names. */
  function Singular(t: ContentTypeTransformer): (r: Result<string, TaxonomyError>)
    ensures r.Success? <==> exists k :: t.value == PluralName(k)
    ensures forall k :: t.value == PluralName(k) ==> r == Success(SingularName(k))
    ensures r.Failure? ==> r.error == KeyNotFound
  {
    match t.value
    case "Stories" => assert t.value == PluralName(Story); Success("Story")
    case "Posts" => assert t.value == PluralName(Post); Success("Post")
    case "Messages" => assert t.value == PluralName(Message); Success("Message")
    case "MassMessages" => assert t.value == PluralName(MassMessage); Success("MassMessage")
    case _ => Failure(KeyNotFound)
  }

  /** `singular` is the exact inverse of `plural`, in both directions. */
  lemma SingularInvertsPlural(s: string, p: string)
    ensures Plural(ContentTypeTransformer(s, s)) == Success(p)
        <==> Singular(ContentTypeTransformer(p, p)) == Success(s)
  {
  }

  /** The singular and plural names of Story, Post and Message are already
      in capitalized form, so normalisation never changes them. */
  lemma CanonicalNamesCapitalized(k: ContentKey)
    requires k != MassMessage
    ensures Capitalize(SingularName(k)) == SingularName(k)
    ensures Capitalize(PluralName(k)) == PluralName(k)
  {
    var singular, plural := SingularName(k), PluralName(k);
    assert !IsLower(singular[0]) && !IsLower(plural[0]);
    CapitalizeFixesCapitalized(singular);
    CapitalizeFixesCapitalized(plural);
  }

  /** Going through the transformer, `singular(plural(k))` gives back `k`;
      for MassMessage this needs the casing test to accept both names, as
      `capitalize` would turn them into "Massmessage(s)". */
  lemma TransformerRoundTrip(k: ContentKey, isPascalCase: string -> bool)
    requires k == MassMessage ==> isPascalCase("MassMessage") && isPascalCase("MassMessages")
    ensures Plural(NewTransformer(SingularName(k), isPascalCase)) == Success(PluralName(k))
    ensures Singular(NewTransformer(PluralName(k), isPascalCase)) == Success(SingularName(k))
  {
    if k != MassMessage {
      CanonicalNamesCapitalized(k);
    }
  }

  /** The casing condition of `TransformerRoundTrip` is also necessary:
      each half of the MassMessage round trip succeeds exactly when its
      name passes the casing test, since `capitalize` would produce
      "Massmessage" or "Massmessages", which neither table knows. */
  lemma MassMessageRoundTripNeedsPascalCase(isPascalCase: string -> bool)
    ensures Plural(NewTransformer("MassMessage", isPascalCase)).Success? <==> isPascalCase("MassMessage")
    ensures Singular(NewTransformer("MassMessages", isPascalCase)).Success? <==> isPascalCase("MassMessages")
  {
    MassMessageCapitalized();
  }

  /** `capitalize` lower-cases the inner capital of MassMessage(s). */
  lemma MassMessageCapitalized()
    ensures Capitalize("MassMessage") == "Massmessage"
    ensures Capitalize("MassMessages") == "Massmessages"
  {
    CapitalizeCharwise("MassMessage", "Massmessage");
    CapitalizeCharwise("MassMessages", "Massmessages");
  }

  // ---------------------------------------------------------------------
  // convert_api_type_to_key
  // ---------------------------------------------------------------------

  /** The content objects `convert_api_type_to_key` distinguishes by class. */
  datatype ApiContent =
    | StoryObject
    | PostObject
    | MessageObject
    | MassMessageObject
    | OtherObject

  /** `plural()` rejects the capitalized spelling "Massmessage". */
  lemma PluralOfMassmessage(t: ContentTypeTransformer)
    ensures t.value == "Massmessage" ==> Plural(t) == Failure(KeyNotFound)
  {
  }

  /** The canonical kind of a recognised content object. */
  function KindOf(v: ApiContent): ContentKey
    requires !v.OtherObject?
  {
    match v
    case StoryObject => Story
    case PostObject => Post
    case MessageObject => Message
    case MassMessageObject => MassMessage
  }

  /** Normalising a canonical singular name keeps it, except that MassMessage
      becomes "Massmessage" when the casing test rejects it. */
  lemma NormalisedSingular(k: ContentKey, isPascalCase: string -> bool)
    ensures k != MassMessage || isPascalCase("MassMessage") ==>
      NewTransformer(SingularName(k), isPascalCase).value == SingularName(k)
    ensures k == MassMessage && !isPascalCase("MassMessage") ==>
      NewTransformer(SingularName(k), isPascalCase).value == "Massmessage"
  {
    if k == MassMessage {
      MassMessageCapitalized();
    } else {
      CanonicalNamesCapitalized(k);
    }
  }

  /** `convert_api_type_to_key(value, make_plural)`: the plural name of the
      object's kind when `makePlural`, otherwise the transformer's normalised
      singular name; any other object raises. */
  function ConvertApiTypeToKey(v: ApiContent, makePlural: bool, isPascalCase: string -> bool)
    : (r: Result<string, TaxonomyError>)
    ensures v.OtherObject? ==> r == Failure(ApiContentTypeNotFound)
    ensures !v.OtherObject? && (v != MassMessageObject || isPascalCase("MassMessage")) ==>
      r == Success(Projection(KindOf(v), makePlural))
    ensures v == MassMessageObject && !isPascalCase("MassMessage") ==>
      r == if makePlural then Failure(KeyNotFound) else Success("Massmessage")
  {
    if v.OtherObject? then Failure(ApiContentTypeNotFound)
    else
      var transformer := NewTransformer(SingularName(KindOf(v)), isPascalCase);
      NormalisedSingular(KindOf(v), isPascalCase);
      PluralOfMassmessage(transformer);
      if makePlural then Plural(transformer) else Success(transformer.value)
  }

  /** The two modes of `convert_api_type_to_key` agree: whenever the plural
      key exists, `singular()` of it is the key the singular mode gives. */
  lemma ConvertModesAgree(v: ApiContent, isPascalCase: string -> bool)
    requires ConvertApiTypeToKey(v, true, isPascalCase).Success?
    ensures var p := ConvertApiTypeToKey(v, true, isPascalCase).value;
      Singular(ContentTypeTransformer(p, p)) == ConvertApiTypeToKey(v, false, isPascalCase)
  {
  }

  // ---------------------------------------------------------------------
  // ContentTypes
  // ---------------------------------------------------------------------

  /** The attributes of `ContentTypes`, in declaration order. */
  const DeclaredKeys: seq<string> :=
    ["Stories", "Posts", "Chats", "Messages", "Highlights", "MassMessages"]

  /** `get_keys()`: the six attribute names, covering the plural name of
      every canonical kind plus Chats and Highlights. */
  function GetKeys(): (keys: seq<string>)
    ensures keys == ["Stories", "Posts", "Chats", "Messages", "Highlights", "MassMessages"]
    ensures forall k :: PluralName(k) in keys
    ensures "Chats" in keys && "Highlights" in keys
  {
    DeclaredKeys
  }

  /** No two keys share a lower-case form, so the case-insensitive lookups
      below can match at most one key per name. */
  lemma KeysDistinctIgnoringCase()
    ensures forall i, j :: 0 <= i < j < |GetKeys()| ==> Lower(GetKeys()[i]) != Lower(GetKeys()[j])
  {
    var keys := GetKeys();
    forall i, j | 0 <= i < j < |keys|
      ensures Lower(keys[i]) != Lower(keys[j])
    {
      assert i == 0 || i == 1 || i == 2 || i == 3 || i == 4;
      assert j == 1 || j == 2 || j == 3 || j == 4 || j == 5;
      LowerDistinct(keys[i], keys[j]);
    }
  }

  /** Index of the first key whose lower-case form is `target`. */
  function FirstLowerMatch(keys: seq<string>, target: string): (r: Option<nat>)
    ensures r.Some? ==> r.value < |keys| && Lower(keys[r.value]) == target
    ensures r.Some? ==> forall j :: 0 <= j < r.value ==> Lower(keys[j]) != target
    ensures r.None? ==> forall j :: 0 <= j < |keys| ==> Lower(keys[j]) != target
  {
    if keys == [] then None
    else if Lower(keys[0]) == target then Some(0)
    else match FirstLowerMatch(keys[1..], target)
      case None => None
      case Some(i) => Some(i + 1)
  }

  /** `response_type_to_key(value)`: the key whose lower-case form is
      `value + "s"`; the value itself is not lower-cased. */
  function ResponseTypeToKey(value: string): (r: Option<string>)
    ensures r.Some? ==> r.value in GetKeys() && Lower(r.value) == value + "s"
    ensures r.None? <==> forall k :: k in GetKeys() ==> Lower(k) != value + "s"
  {
    match FirstLowerMatch(GetKeys(), value + "s")
    case None => None
    case Some(i) => Some(GetKeys()[i])
  }

  /** Whether some path part equals `key` ignoring case. */
  function PartsMatch(key: string, parts: seq<string>): (b: bool)
    ensures b <==> exists p :: p in parts && Lower(p) == Lower(key)
  {
    if parts == [] then false
    else if Lower(key) == Lower(parts[0]) then
      assert parts[0] in parts;
      true
    else
      assert forall p :: p in parts <==> p == parts[0] || p in parts[1..];
      PartsMatch(key, parts[1..])
  }

  /** Index of the first key (in key order) that matches some part. */
  function FirstKeyInParts(keys: seq<string>, parts: seq<string>): (r: Option<nat>)
    ensures r.Some? ==> r.value < |keys| && PartsMatch(keys[r.value], parts)
    ensures r.Some? ==> forall j :: 0 <= j < r.value ==> !PartsMatch(keys[j], parts)
    ensures r.None? ==> forall j :: 0 <= j < |keys| ==> !PartsMatch(keys[j], parts)
  {
    if keys == [] then None
    else if PartsMatch(keys[0], parts) then Some(0)
    else match FirstKeyInParts(keys[1..], parts)
      case None => None
      case Some(i) => Some(i + 1)
  }

  /** `path_to_key(path)`, the path given by its parts: the first key in
      declaration order that equals some part ignoring case. */
  function PathToKey(parts: seq<string>): (r: Option<string>)
    ensures r.Some? ==> r.value in GetKeys() && PartsMatch(r.value, parts)
    ensures r.Some? ==>
      exists i :: 0 <= i < |GetKeys()| && GetKeys()[i] == r.value &&
        (forall j :: 0 <= j < i ==> !PartsMatch(GetKeys()[j], parts))
    ensures r.None? <==> forall k :: k in GetKeys() ==> !PartsMatch(k, parts)
  {
    match FirstKeyInParts(GetKeys(), parts)
    case None => None
    case Some(i) => Some(GetKeys()[i])
  }

  /** `convert_to_key(value)`: story, post and message in any casing map to
      their plural key; everything else, MassMessage included, raises. */
  function ConvertToKey(value: string): (r: Result<string, TaxonomyError>)
    ensures r.Success? <==> Lower(value) in {"story", "post", "message"}
    ensures r.Success? ==> r.value in GetKeys()
    ensures forall k :: k != MassMessage && Lower(value) == Lower(SingularName(k)) ==>
      r == Success(PluralName(k))
    ensures r.Failure? ==> r.error == ConvertToKeyNotFound
  {
    var lowered := Lower(value);
    if lowered == "story" then Success("Stories")
    else if lowered == "post" then Success("Posts")
    else if lowered == "message" then Success("Messages")
    else Failure(ConvertToKeyNotFound)
  }

  /** "post" finds Posts: the key is the value with an "s" appended. */
  lemma ResponseTypeOfPost()
    ensures ResponseTypeToKey("post") == Some("Posts")
  {
    var keys := GetKeys();
    assert FirstLowerMatch(keys[1..], "posts") == Some(0);
    assert FirstLowerMatch(keys, "posts") == Some(1);
  }

  /** "story" finds nothing: "storys" is not the lower-case form of any key. */
  lemma ResponseTypeOfStory()
    ensures ResponseTypeToKey("story") == None
  {
    var keys := GetKeys();
    forall i | 0 <= i < |keys|
      ensures Lower(keys[i]) != "story" + "s"
    {
      assert |keys[i]| != 6 by {
        assert i == 0 || i == 1 || i == 2 || i == 3 || i == 4 || i == 5;
      }
    }
  }

  /** The value is compared as given: one with an upper-case letter never
      matches, since every lower-case form is free of them. */
  lemma ResponseTypeIsCaseSensitive(value: string, i: nat)
    requires i < |value| && IsUpper(value[i])
    ensures ResponseTypeToKey(value) == None
  {
    forall k | k in GetKeys()
      ensures Lower(k) != value + "s"
    {
      var target := value + "s";
      assert IsUpper(target[i]);
      if |Lower(k)| == |target| {
        assert !IsUpper(Lower(k)[i]);
      }
    }
  }

  /** A path made of one declared key (in any casing) resolves to that key. */
  lemma PathToKeyOfDeclaredKey(i: nat, part: string)
    requires i < |GetKeys()| && Lower(part) == Lower(GetKeys()[i])
    ensures PathToKey([part]) == Some(GetKeys()[i])
  {
    KeysDistinctIgnoringCase();
    var r := PathToKey([part]);
    assert PartsMatch(GetKeys()[i], [part]);
    var j :| 0 <= j < |GetKeys()| && GetKeys()[j] == r.value &&
      (forall j' :: 0 <= j' < j ==> !PartsMatch(GetKeys()[j'], [part]));
    assert Lower(GetKeys()[j]) == Lower(part);
  }

  /** `convert_to_key` ignores case and does not know MassMessage. */
  lemma ConvertToKeyExamples()
    ensures ConvertToKey("STORY") == Success("Stories")
    ensures ConvertToKey("MassMessage").Failure?
  {
  }

  /** Declaration order wins over position in the path: a part naming
      Stories (the first declared key) decides the result wherever it is. */
  lemma PathToKeyPrefersDeclarationOrder(parts: seq<string>, i: nat)
    requires i < |parts| && Lower(parts[i]) == "stories"
    ensures PathToKey(parts) == Some("Stories")
  {
  }
}
