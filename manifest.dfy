/**
 * Reading the asset index objects.json: its "objects" mapping is filtered to
 * the keys in the "minecraft/sounds/" namespace, and each surviving key
 * becomes a MinecraftSound record carrying the entry's "hash".
 */
module Manifest {
  import opened Wrappers

  /** One entry of the "objects" mapping: its key and the value of its "hash" field, if it has one. */
  datatype ObjectEntry = ObjectEntry(key: string, hash: Option<string>)

  /** The decoded objects.json: the entries of "objects" in iteration order, None when the key is absent. */
  datatype Document = Document(objects: Option<seq<ObjectEntry>>)

  /** A sound of the asset index: its logical path and the hash naming its blob. */
  datatype MinecraftSound = MinecraftSound(path: string, hash: string)

  /** The KeyError raised when a sound entry has no "hash" field; it names the entry. */
  datatype ManifestError = MissingHash(key: string)

  /** The namespace of the sound assets. */
  const SoundsPrefix: string := "minecraft/sounds/"

  /** key.startswith("minecraft/sounds/") */
  predicate IsSoundKey(key: string): (b: bool)
    ensures b <==> exists rest :: key == SoundsPrefix + rest
  {
    assert |SoundsPrefix| <= |key| ==> key == key[..|SoundsPrefix|] + key[|SoundsPrefix|..];
    |SoundsPrefix| <= |key| && key[..|SoundsPrefix|] == SoundsPrefix
  }

  /** data.get("objects", {}): the entries iterated over, none when "objects" is absent. */
  function Entries(doc: Document): (es: seq<ObjectEntry>)
    ensures doc.objects.Some? ==> es == doc.objects.value
    ensures doc.objects.None? ==> es == []
  {
    if doc.objects.Some? then doc.objects.value else []
  }

  /** A dictionary never holds the same key twice. */
  ghost predicate DistinctKeys(es: seq<ObjectEntry>) {
    forall i, j :: 0 <= i < j < |es| ==> es[i].key != es[j].key
  }

  /** The entry is a sound whose "hash" field is missing. */
  predicate HashMissing(e: ObjectEntry) {
    IsSoundKey(e.key) && e.hash.None?
  }

  /** The outcome of parsing the entries es in order: the sound records, or the first missing hash. */
  function Parsed(es: seq<ObjectEntry>): Result<seq<MinecraftSound>, ManifestError>
    decreases |es|
  {
    if es == [] then Success([])
    else
      var e := es[|es| - 1];
      match Parsed(es[..|es| - 1])
      case Failure(err) => Failure(err)
      case Success(sounds) =>
        if !IsSoundKey(e.key) then Success(sounds)
        else if e.hash.None? then Failure(MissingHash(e.key))
        else Success(sounds + [MinecraftSound(e.key, e.hash.value)])
  }

  /** parse_objects_json, given the decoded document. */
  method ParseObjectsJson(doc: Document) returns (r: Result<seq<MinecraftSound>, ManifestError>)
    ensures r == Parsed(Entries(doc))
    ensures doc.objects.None? ==> r == Success([])
  {
    var es := Entries(doc);
    var sounds: seq<MinecraftSound> := [];
    var i := 0;
    while i < |es|
      invariant 0 <= i <= |es|
      invariant Parsed(es[..i]) == Success(sounds)
    {
      assert es[..i + 1][..i] == es[..i];
      var e := es[i];
      if IsSoundKey(e.key) {
        if e.hash.None? {
          ParsedFailureSticky(es, i + 1);
          return Failure(MissingHash(e.key));
        }
        sounds := sounds + [MinecraftSound(e.key, e.hash.value)];
      }
      i := i + 1;
    }
    assert es[..i] == es;
    r := Success(sounds);
  }

  /** Once a prefix of the entries fails, the whole parse fails with the same error. */
  lemma {:induction false} ParsedFailureSticky(es: seq<ObjectEntry>, n: nat)
    requires n <= |es| && Parsed(es[..n]).Failure?
    ensures Parsed(es) == Parsed(es[..n])
    decreases |es| - n
  {
    if n < |es| {
      var init := es[..|es| - 1];
      assert init[..n] == es[..n];
      ParsedFailureSticky(init, n);
    } else {
      assert es[..n] == es;
    }
  }

  /** Parsing succeeds exactly when every sound entry has a "hash" field. */
  lemma {:induction false} ParsedSucceedsIff(es: seq<ObjectEntry>)
    ensures Parsed(es).Success? <==> forall i :: 0 <= i < |es| ==> !HashMissing(es[i])
  {
    if es != [] {
      var init := es[..|es| - 1];
      ParsedSucceedsIff(init);
      assert forall i :: 0 <= i < |init| ==> init[i] == es[i];
    }
  }

  /** A failed parse names the first sound entry that has no "hash" field. */
  lemma {:induction false} ParsedFailsAtFirstMissingHash(es: seq<ObjectEntry>)
    requires Parsed(es).Failure?
    ensures exists i :: 0 <= i < |es| && HashMissing(es[i]) && Parsed(es).error == MissingHash(es[i].key)
              && forall j :: 0 <= j < i ==> !HashMissing(es[j])
  {
    var init := es[..|es| - 1];
    if Parsed(init).Failure? {
      ParsedFailsAtFirstMissingHash(init);
      var i :| 0 <= i < |init| && HashMissing(init[i]) && Parsed(init).error == MissingHash(init[i].key)
               && forall j :: 0 <= j < i ==> !HashMissing(init[j]);
      assert es[i] == init[i];
      assert forall j :: 0 <= j < i ==> es[j] == init[j];
    } else {
      ParsedSucceedsIff(init);
      assert forall j :: 0 <= j < |es| - 1 ==> es[j] == init[j];
    }
  }

  /**
   * The parse keeps exactly the sound entries: a record is in the result
   * exactly when some entry with a "minecraft/sounds/" key has its path as
   * key and its hash as "hash".
   */
  lemma {:induction false} ParsedExact(es: seq<ObjectEntry>)
    requires Parsed(es).Success?
    ensures forall s :: s in Parsed(es).value <==>
              exists i :: 0 <= i < |es| && IsSoundKey(es[i].key) && es[i] == ObjectEntry(s.path, Some(s.hash))
  {
    if es != [] {
      var init := es[..|es| - 1];
      ParsedExact(init);
      assert forall i :: 0 <= i < |init| ==> init[i] == es[i];
      forall s: MinecraftSound | exists i :: 0 <= i < |es| && IsSoundKey(es[i].key) && es[i] == ObjectEntry(s.path, Some(s.hash))
        ensures s in Parsed(es).value
      {
        var i :| 0 <= i < |es| && IsSoundKey(es[i].key) && es[i] == ObjectEntry(s.path, Some(s.hash));
        if i < |init| {
          assert init[i] == es[i];
        }
      }
    }
  }

  /** Every parsed record is in the "minecraft/sounds/" namespace. */
  lemma ParsedAreSounds(es: seq<ObjectEntry>)
    requires Parsed(es).Success?
    ensures forall k :: 0 <= k < |Parsed(es).value| ==> IsSoundKey(Parsed(es).value[k].path)
  {
    ParsedExact(es);
    forall k | 0 <= k < |Parsed(es).value|
      ensures IsSoundKey(Parsed(es).value[k].path)
    {
      assert Parsed(es).value[k] in Parsed(es).value;
    }
  }

  /**
   * Manifest order is kept: the records of any prefix of the entries are a
   * prefix of the records, and the record of a sound entry follows exactly
   * the records of the entries before it.
   */
  lemma {:induction false} ParsedInOrder(es: seq<ObjectEntry>, n: nat)
    requires Parsed(es).Success? && n < |es| && IsSoundKey(es[n].key)
    ensures Parsed(es[..n]).Success? && Parsed(es[..n + 1]).Success?
    ensures Parsed(es[..n + 1]).value == Parsed(es[..n]).value + [MinecraftSound(es[n].key, es[n].hash.value)]
    ensures Parsed(es[..n + 1]).value <= Parsed(es).value
  {
    ParsedPrefix(es, n + 1);
    var pre := es[..n + 1];
    assert pre[..n] == es[..n];
    assert pre[n] == es[n];
  }

  /** The records of a prefix of the entries are a prefix of the records of all of them. */
  lemma {:induction false} ParsedPrefix(es: seq<ObjectEntry>, n: nat)
    requires Parsed(es).Success? && n <= |es|
    ensures Parsed(es[..n]).Success? && Parsed(es[..n]).value <= Parsed(es).value
    decreases |es| - n
  {
    if n < |es| {
      var init := es[..|es| - 1];
      assert init[..n] == es[..n];
      ParsedPrefix(init, n);
    } else {
      assert es[..n] == es;
    }
  }

  /** Distinct manifest keys give records with distinct paths. */
  lemma {:induction false} ParsedPathsDistinct(es: seq<ObjectEntry>)
    requires DistinctKeys(es) && Parsed(es).Success?
    ensures forall a, b :: 0 <= a < b < |Parsed(es).value| ==> Parsed(es).value[a].path != Parsed(es).value[b].path
  {
    if es != [] {
      var init := es[..|es| - 1];
      assert DistinctKeys(init);
      ParsedPathsDistinct(init);
      ParsedExact(init);
      var e := es[|es| - 1];
      var rs := Parsed(init).value;
      forall s | s in rs
        ensures s.path != e.key
      {
        var i :| 0 <= i < |init| && IsSoundKey(init[i].key) && init[i] == ObjectEntry(s.path, Some(s.hash));
        assert init[i] == es[i];
      }
    }
  }
}
