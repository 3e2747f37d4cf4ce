/**
 The structural scrubber (internal/queue/scrubber.go) on decoded JSON values.
 Numbers are kept as their text.
 */
module Scrubber {
  import opened Wrappers
  import opened Text

  datatype Json =
    | Null
    | Bool(b: bool)
    | Number(text: string)
    | Str(s: string)
    | Arr(items: seq<Json>)
    | Obj(fields: map<string, Json>)

  const REDACTED: Json := Str("[REDACTED]")

  const DEFAULT_FIELDS: seq<string> := [
    "email", "password", "token", "secret", "key", "authorization",
    "api_key", "api-key", "apikey", "access_token", "access-token",
    "client_secret", "client-secret", "auth_token", "auth-token",
    "private_key", "private-key", "bearer", "credential"]

  /** The fields a scrubber looks for: those given, or the default ones. */
  function SensitiveFields(fields: seq<string>): seq<string> {
    if fields == [] then DEFAULT_FIELDS else fields
  }

  predicate IsSensitive(sensitive: seq<string>, key: string) {
    ToLower(key) in sensitive
  }

  /** The field has the character of the key, or the lower-case letter for an upper-case one. */
  predicate MatchesField(key: char, field: char) {
    if 'A' <= key <= 'Z' then field == key - 'A' + 'a'
    else if key == '\U{130}' then field == 'i'
    else if key == '\U{212A}' then field == 'k'
    else field == key
  }

  /** A key is sensitive exactly if some field equals it up to the case of the key. */
  lemma IsSensitiveIff(sensitive: seq<string>, key: string)
    ensures IsSensitive(sensitive, key) <==>
            exists f | f in sensitive :: |f| == |key| && forall i | 0 <= i < |key| :: MatchesField(key[i], f[i])
  {
    forall f | f in sensitive
      ensures ToLower(key) == f <==> |f| == |key| && forall i | 0 <= i < |key| :: MatchesField(key[i], f[i])
    {
      assert ToLower(key) == f <==> |f| == |key| && forall i | 0 <= i < |key| :: ToLower(key)[i] == f[i];
    }
  }

  /** The fields as they are configured are compared as they are, so one with an upper-case letter finds nothing. */
  lemma FieldWorksIff(field: string)
    ensures (exists key :: IsSensitive([field], key)) <==> ToLower(field) == field
  {
    forall key | IsSensitive([field], key)
      ensures ToLower(field) == field
    {
      assert ToLower(key) == field;
    }
    if ToLower(field) == field {
      assert IsSensitive([field], field);
    }
  }

  /** Without fields the default ones are looked for, in any case; fields that are given replace them. */
  lemma DefaultsAreReplaced(fields: seq<string>, key: string)
    ensures IsSensitive(SensitiveFields(fields), key) <==>
            ToLower(key) in fields || (|fields| == 0 && ToLower(key) in DEFAULT_FIELDS)
  {
  }

  /** The value after scrubRecursive. */
  function Scrub(sensitive: seq<string>, v: Json): Json
    decreases v
  {
    match v
    case Obj(fields) =>
      Obj(map k | k in fields :: if IsSensitive(sensitive, k) then REDACTED else Scrub(sensitive, fields[k]))
    case Arr(items) => Arr(seq(|items|, i requires 0 <= i < |items| => Scrub(sensitive, items[i])))
    case _ => v
  }

  // ------------------------------------------------------------------
  // Where a value is in a tree

  datatype Step = Key(k: string) | Index(i: nat)

  function At(v: Json, path: seq<Step>): Option<Json> {
    if path == [] then Some(v)
    else
      match path[0]
      case Key(k) => if v.Obj? && k in v.fields then At(v.fields[k], path[1..]) else None
      case Index(i) => if v.Arr? && i < |v.items| then At(v.items[i], path[1..]) else None
  }

  predicate Hits(sensitive: seq<string>, step: Step) {
    step.Key? && IsSensitive(sensitive, step.k)
  }

  /** The path meets no sensitive key. */
  ghost predicate Clean(sensitive: seq<string>, path: seq<Step>) {
    forall i | 0 <= i < |path| :: !Hits(sensitive, path[i])
  }

  /** What is kept of a value apart from what lies below it. */
  ghost predicate SameShape(a: Json, b: Json) {
    match a
    case Obj(fields) => b.Obj? && b.fields.Keys == fields.Keys
    case Arr(items) => b.Arr? && |b.items| == |items|
    case _ => b == a
  }

  lemma {:induction false} ScrubbedAtClean(sensitive: seq<string>, v: Json, path: seq<Step>)
    requires Clean(sensitive, path)
    ensures At(Scrub(sensitive, v), path) ==
            match At(v, path) case None => None case Some(x) => Some(Scrub(sensitive, x))
    decreases |path|
  {
    if path != [] {
      assert !Hits(sensitive, path[0]);
      match path[0]
      case Key(k) =>
        if v.Obj? && k in v.fields {
          ScrubbedAtClean(sensitive, v.fields[k], path[1..]);
        }
      case Index(i) =>
        if v.Arr? && i < |v.items| {
          ScrubbedAtClean(sensitive, v.items[i], path[1..]);
        }
    }
  }

  /** Off the sensitive keys the tree is unchanged: scalars stay, keys and lengths stay. */
  lemma CleanPathsKeepTheirValues(sensitive: seq<string>, v: Json, path: seq<Step>)
    requires Clean(sensitive, path)
    ensures var before, after := At(v, path), At(Scrub(sensitive, v), path);
            before.Some? == after.Some? && (before.Some? ==> SameShape(before.value, after.value))
  {
    ScrubbedAtClean(sensitive, v, path);
  }

  lemma {:induction false} AtConcat(v: Json, p: seq<Step>, q: seq<Step>)
    ensures At(v, p + q) == match At(v, p) case None => None case Some(x) => At(x, q)
    decreases |p|
  {
    if p == [] {
      assert p + q == q;
    } else {
      assert (p + q)[1..] == p[1..] + q;
      match p[0]
      case Key(k) =>
        if v.Obj? && k in v.fields {
          AtConcat(v.fields[k], p[1..], q);
        }
      case Index(i) =>
        if v.Arr? && i < |v.items| {
          AtConcat(v.items[i], p[1..], q);
        }
    }
  }

  /** Every sensitive key, at any depth, maps to the marker, and nothing is left below it. */
  lemma SensitiveKeysAreRedacted(sensitive: seq<string>, v: Json, above: seq<Step>, key: string, below: seq<Step>)
    requires Clean(sensitive, above) && IsSensitive(sensitive, key)
    ensures At(Scrub(sensitive, v), above + [Key(key)] + below) ==
            if below == [] && At(v, above + [Key(key)]).Some? then Some(REDACTED) else None
  {
    var w := Scrub(sensitive, v);
    AtConcat(w, above + [Key(key)], below);
    AtConcat(w, above, [Key(key)]);
    AtConcat(v, above, [Key(key)]);
    ScrubbedAtClean(sensitive, v, above);
    assert [Key(key)][1..] == [];
  }

  /** Scrubbing twice is scrubbing once. */
  lemma {:induction false} ScrubIdempotent(sensitive: seq<string>, v: Json)
    ensures Scrub(sensitive, Scrub(sensitive, v)) == Scrub(sensitive, v)
    decreases v
  {
    var once := Scrub(sensitive, v);
    match v
    case Obj(fields) =>
      forall k | k in fields && !IsSensitive(sensitive, k)
        ensures Scrub(sensitive, once.fields[k]) == once.fields[k]
      {
        ScrubIdempotent(sensitive, fields[k]);
      }
    case Arr(items) =>
      forall i | 0 <= i < |items|
        ensures Scrub(sensitive, once.items[i]) == once.items[i]
      {
        ScrubIdempotent(sensitive, items[i]);
      }
    case _ =>
  }

  // ------------------------------------------------------------------
  // The rewrite in place.  Decoded objects are maps on the heap, which may be shared.

  datatype Ref = Leaf(value: Json) | List(items: seq<Ref>) | Fields(dict: JsonMap)

  class JsonMap {
    var fields: map<string, Ref>

    constructor (fields: map<string, Ref>)
      ensures this.fields == fields
    {
      this.fields := fields;
    }
  }

  /** What the maps of a document hold at some moment. */
  type Heap = map<JsonMap, map<string, Ref>>

  ghost function Contents(maps: set<JsonMap>): (h: Heap)
    reads maps
    ensures h.Keys == maps
  {
    map m | m in maps :: m.fields
  }

  /** The reference stands for the value `v`. */
  ghost predicate Decodes(h: Heap, r: Ref, v: Json)
    decreases v
  {
    match v
    case Obj(fields) =>
      && r.Fields? && r.dict in h && h[r.dict].Keys == fields.Keys
      && forall k | k in fields :: Decodes(h, h[r.dict][k], fields[k])
    case Arr(items) =>
      && r.List? && |r.items| == |items|
      && forall i | 0 <= i < |items| :: Decodes(h, r.items[i], items[i])
    case _ => r == Leaf(v)
  }

  predicate Redacted(sensitive: seq<string>, k: string, r: Ref) {
    IsSensitive(sensitive, k) && r == Leaf(REDACTED)
  }

  /** The same, but some of the sensitive keys may hold the marker already. */
  ghost predicate PartlyDecodes(sensitive: seq<string>, h: Heap, r: Ref, v: Json)
    decreases v
  {
    match v
    case Obj(fields) =>
      && r.Fields? && r.dict in h && h[r.dict].Keys == fields.Keys
      && forall k | k in fields ::
           Redacted(sensitive, k, h[r.dict][k]) || PartlyDecodes(sensitive, h, h[r.dict][k], fields[k])
    case Arr(items) =>
      && r.List? && |r.items| == |items|
      && forall i | 0 <= i < |items| :: PartlyDecodes(sensitive, h, r.items[i], items[i])
    case _ => r == Leaf(v)
  }

  /** Between two moments the document changed only by markers put under sensitive keys. */
  ghost predicate OnlyRedacts(sensitive: seq<string>, h: Heap, h': Heap) {
    && h.Keys == h'.Keys
    && forall m | m in h ::
         && h'[m].Keys == h[m].Keys
         && forall k | k in h[m] :: h'[m][k] == h[m][k] || Redacted(sensitive, k, h'[m][k])
  }

  lemma {:induction false} DecodesPartly(sensitive: seq<string>, h: Heap, r: Ref, v: Json)
    requires Decodes(h, r, v)
    ensures PartlyDecodes(sensitive, h, r, v)
    decreases v
  {
    match v
    case Obj(fields) =>
      forall k | k in fields
        ensures PartlyDecodes(sensitive, h, h[r.dict][k], fields[k])
      {
        DecodesPartly(sensitive, h, h[r.dict][k], fields[k]);
      }
    case Arr(items) =>
      forall i | 0 <= i < |items|
        ensures PartlyDecodes(sensitive, h, r.items[i], items[i])
      {
        DecodesPartly(sensitive, h, r.items[i], items[i]);
      }
    case _ =>
  }

  lemma {:induction false} PartlyDecodesStill(sensitive: seq<string>, h: Heap, h': Heap, r: Ref, v: Json)
    requires OnlyRedacts(sensitive, h, h') && PartlyDecodes(sensitive, h, r, v)
    ensures PartlyDecodes(sensitive, h', r, v)
    decreases v
  {
    match v
    case Obj(fields) =>
      forall k | k in fields && !Redacted(sensitive, k, h'[r.dict][k])
        ensures PartlyDecodes(sensitive, h', h'[r.dict][k], fields[k])
      {
        PartlyDecodesStill(sensitive, h, h', h[r.dict][k], fields[k]);
      }
    case Arr(items) =>
      forall i | 0 <= i < |items|
        ensures PartlyDecodes(sensitive, h', r.items[i], items[i])
      {
        PartlyDecodesStill(sensitive, h, h', r.items[i], items[i]);
      }
    case _ =>
  }

  /** What has been scrubbed stays scrubbed, whatever else of the document is redacted later. */
  lemma {:induction false} ScrubbedStill(sensitive: seq<string>, h: Heap, h': Heap, r: Ref, v: Json)
    requires OnlyRedacts(sensitive, h, h') && Decodes(h, r, Scrub(sensitive, v))
    ensures Decodes(h', r, Scrub(sensitive, v))
    decreases v
  {
    match v
    case Obj(fields) =>
      var scrubbed := Scrub(sensitive, v).fields;
      forall k | k in fields
        ensures Decodes(h', h'[r.dict][k], scrubbed[k])
      {
        assert Decodes(h, h[r.dict][k], scrubbed[k]);
        if !IsSensitive(sensitive, k) {
          ScrubbedStill(sensitive, h, h', h[r.dict][k], fields[k]);
        }
      }
    case Arr(items) =>
      forall i | 0 <= i < |items|
        ensures Decodes(h', r.items[i], Scrub(sensitive, items[i]))
      {
        assert Decodes(h, r.items[i], Scrub(sensitive, v).items[i]);
        ScrubbedStill(sensitive, h, h', r.items[i], items[i]);
      }
    case _ =>
  }

  lemma OnlyRedactsFurther(sensitive: seq<string>, h: Heap, h': Heap, h'': Heap)
    requires OnlyRedacts(sensitive, h, h') && OnlyRedacts(sensitive, h', h'')
    ensures OnlyRedacts(sensitive, h, h'')
  {
    forall m, k | m in h && k in h[m]
      ensures h''[m][k] == h[m][k] || Redacted(sensitive, k, h''[m][k])
    {
      assert h''[m][k] == h'[m][k] || Redacted(sensitive, k, h''[m][k]);
    }
  }

  /** These entries of a map hold the scrubbed values. */
  ghost predicate FieldsDone(sensitive: seq<string>, h: Heap, dict: JsonMap, v: Json, keys: set<string>) {
    && v.Obj? && dict in h && h[dict].Keys == v.fields.Keys && keys <= v.fields.Keys
    && forall k | k in keys :: Decodes(h, h[dict][k], Scrub(sensitive, v).fields[k])
  }

  lemma SameKeys(sensitive: seq<string>, h: Heap, dict: JsonMap, v: Json)
    requires PartlyDecodes(sensitive, h, Fields(dict), v)
    ensures v.Obj? && dict in h && h[dict].Keys == v.fields.Keys
  {
  }

  lemma OnlyRedactsNothing(sensitive: seq<string>, h: Heap, dict: JsonMap, v: Json)
    requires PartlyDecodes(sensitive, h, Fields(dict), v)
    ensures OnlyRedacts(sensitive, h, h) && FieldsDone(sensitive, h, dict, v, {})
  {
  }

  lemma ScrubbedField(sensitive: seq<string>, h: Heap, h': Heap, dict: JsonMap, k: string, v: Json)
    requires PartlyDecodes(sensitive, h, Fields(dict), v) && k in h[dict] && !IsSensitive(sensitive, k)
    requires OnlyRedacts(sensitive, h, h') && Decodes(h', h[dict][k], Scrub(sensitive, v.fields[k]))
    ensures FieldsDone(sensitive, h', dict, v, {k})
  {
    hide IsSensitive, Scrub;
    assert h'[dict][k] == h[dict][k];
    ScrubbedAt(sensitive, v, k);
  }

  lemma ScrubbedAt(sensitive: seq<string>, v: Json, k: string)
    requires v.Obj? && k in v.fields
    ensures Scrub(sensitive, v).Obj? && Scrub(sensitive, v).fields.Keys == v.fields.Keys
    ensures Scrub(sensitive, v).fields[k] == if IsSensitive(sensitive, k) then REDACTED else Scrub(sensitive, v.fields[k])
  {
  }

  lemma FieldsDoneStill(sensitive: seq<string>, h: Heap, h': Heap, dict: JsonMap, v: Json, keys: set<string>)
    requires OnlyRedacts(sensitive, h, h') && FieldsDone(sensitive, h, dict, v, keys)
    ensures FieldsDone(sensitive, h', dict, v, keys)
  {
    forall k | k in keys
      ensures Decodes(h', h'[dict][k], Scrub(sensitive, v).fields[k])
    {
      if !IsSensitive(sensitive, k) {
        assert h'[dict][k] == h[dict][k];
        ScrubbedStill(sensitive, h, h', h[dict][k], v.fields[k]);
      }
    }
  }

  lemma FieldsDoneTogether(sensitive: seq<string>, h: Heap, dict: JsonMap, v: Json, a: set<string>, b: set<string>)
    requires FieldsDone(sensitive, h, dict, v, a) && FieldsDone(sensitive, h, dict, v, b)
    ensures FieldsDone(sensitive, h, dict, v, a + b)
  {
  }

  lemma AllFieldsDone(sensitive: seq<string>, h: Heap, dict: JsonMap, v: Json)
    requires v.Obj? && FieldsDone(sensitive, h, dict, v, v.fields.Keys)
    ensures Decodes(h, Fields(dict), Scrub(sensitive, v))
  {
  }

  class StructuralScrubber {
    const sensitiveFields: seq<string>

    constructor (fields: seq<string>)
      ensures sensitiveFields == SensitiveFields(fields)
    {
      sensitiveFields := SensitiveFields(fields);
    }

    /** `v` is the value before any scrubbing; its parts may share maps. */
    method ScrubRecursive(r: Ref, ghost v: Json, ghost maps: set<JsonMap>)
      requires PartlyDecodes(sensitiveFields, Contents(maps), r, v)
      modifies maps
      ensures Decodes(Contents(maps), r, Scrub(sensitiveFields, v))
      ensures OnlyRedacts(sensitiveFields, old(Contents(maps)), Contents(maps))
      decreases v, 2
    {
      match r
      case Fields(dict) => ScrubFields(dict, v, maps);
      case List(items) => ScrubItems(items, v, maps);
      case Leaf(_) =>
    }

    /** One entry: a sensitive key gets the marker, any other child is scrubbed itself. */
    method ScrubField(dict: JsonMap, k: string, ghost v: Json, ghost maps: set<JsonMap>)
      requires PartlyDecodes(sensitiveFields, Contents(maps), Fields(dict), v) && k in dict.fields
      modifies maps
      ensures OnlyRedacts(sensitiveFields, old(Contents(maps)), Contents(maps))
      ensures FieldsDone(sensitiveFields, Contents(maps), dict, v, {k})
      decreases v, 0
    {
      ghost var before := Contents(maps);
      if IsSensitive(sensitiveFields, k) {
        dict.fields := dict.fields[k := Leaf(REDACTED)];
      } else {
        ScrubRecursive(dict.fields[k], v.fields[k], maps);
        ScrubbedField(sensitiveFields, before, Contents(maps), dict, k, v);
      }
    }

    method ScrubFields(dict: JsonMap, ghost v: Json, ghost maps: set<JsonMap>)
      requires PartlyDecodes(sensitiveFields, Contents(maps), Fields(dict), v)
      modifies maps
      ensures Decodes(Contents(maps), Fields(dict), Scrub(sensitiveFields, v))
      ensures OnlyRedacts(sensitiveFields, old(Contents(maps)), Contents(maps))
      decreases v, 1
    {
      hide PartlyDecodes, OnlyRedacts, FieldsDone, Scrub, Decodes;
      ghost var start := Contents(maps);
      SameKeys(sensitiveFields, start, dict, v);
      OnlyRedactsNothing(sensitiveFields, start, dict, v);
      var rest := dict.fields.Keys;
      assert v.fields.Keys - rest == {};
      while rest != {}
        invariant rest <= v.fields.Keys
        invariant OnlyRedacts(sensitiveFields, start, Contents(maps))
        invariant PartlyDecodes(sensitiveFields, Contents(maps), Fields(dict), v)
        invariant FieldsDone(sensitiveFields, Contents(maps), dict, v, v.fields.Keys - rest)
        decreases |rest|
      {
        var k :| k in rest;
        ghost var before, done := Contents(maps), v.fields.Keys - rest;
        SameKeys(sensitiveFields, before, dict, v);
        ScrubField(dict, k, v, maps);
        OnlyRedactsFurther(sensitiveFields, start, before, Contents(maps));
        PartlyDecodesStill(sensitiveFields, before, Contents(maps), Fields(dict), v);
        FieldsDoneStill(sensitiveFields, before, Contents(maps), dict, v, done);
        FieldsDoneTogether(sensitiveFields, Contents(maps), dict, v, done, {k});
        rest := rest - {k};
        assert done + {k} == v.fields.Keys - rest;
      }
      assert v.fields.Keys - rest == v.fields.Keys;
      AllFieldsDone(sensitiveFields, Contents(maps), dict, v);
    }

    method ScrubItems(items: seq<Ref>, ghost v: Json, ghost maps: set<JsonMap>)
      requires PartlyDecodes(sensitiveFields, Contents(maps), List(items), v)
      modifies maps
      ensures Decodes(Contents(maps), List(items), Scrub(sensitiveFields, v))
      ensures OnlyRedacts(sensitiveFields, old(Contents(maps)), Contents(maps))
      decreases v, 0
    {
      for i := 0 to |items|
        invariant OnlyRedacts(sensitiveFields, old(Contents(maps)), Contents(maps))
        invariant PartlyDecodes(sensitiveFields, Contents(maps), List(items), v)
        invariant forall j | 0 <= j < i :: Decodes(Contents(maps), items[j], Scrub(sensitiveFields, v.items[j]))
      {
        ghost var before := Contents(maps);
        ScrubRecursive(items[i], v.items[i], maps);
        PartlyDecodesStill(sensitiveFields, before, Contents(maps), List(items), v);
        OnlyRedactsFurther(sensitiveFields, old(Contents(maps)), before, Contents(maps));
        forall j | 0 <= j < i
          ensures Decodes(Contents(maps), items[j], Scrub(sensitiveFields, v.items[j]))
        {
          ScrubbedStill(sensitiveFields, before, Contents(maps), items[j], v.items[j]);
        }
      }
    }

    /** A whole document: afterwards it stands for the scrubbed value. */
    method ScrubDocument(doc: Ref, ghost v: Json, ghost maps: set<JsonMap>)
      requires Decodes(Contents(maps), doc, v)
      modifies maps
      ensures Decodes(Contents(maps), doc, Scrub(sensitiveFields, v))
      ensures OnlyRedacts(sensitiveFields, old(Contents(maps)), Contents(maps))
    {
      DecodesPartly(sensitiveFields, Contents(maps), doc, v);
      ScrubRecursive(doc, v, maps);
    }
  }
}
