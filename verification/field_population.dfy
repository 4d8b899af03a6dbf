/**
 The six location merge tags: spotting them in hidden-field defaults,
 filling those fields in the posted data, and replacing the tags in text.

 A field counts as asking for location data when its default contains a tag
 anywhere (the first one names the field's tag type), but it is filled only
 when its default is exactly one tag.
 */
module FieldPopulation {
  import opened Wrappers
  import opened PhpValues
  import opened Platform
  import opened PhpStrings
  import opened LocationRecords
  import opened Resolver
  import opened Notes

  datatype TagKind = Country | City | Region | Continent | Latitude | Longitude

  function TagName(k: TagKind): string {
    match k
    case Country => "country"
    case City => "city"
    case Region => "region"
    case Continent => "continent"
    case Latitude => "latitude"
    case Longitude => "longitude"
  }

  /** The merge tag itself, e.g. "{user:country}". */
  function Tag(k: TagKind): string {
    "{user:" + TagName(k) + "}"
  }

  /** The record field a tag stands for. */
  function RecordKey(k: TagKind): string {
    match k
    case Country => "country_name"
    case City => "city"
    case Region => "region_name"
    case Continent => "continent_name"
    case Latitude => "latitude"
    case Longitude => "longitude"
  }

  /** The six tags in the order the source lists them. */
  const Kinds: seq<TagKind> := [Country, City, Region, Continent, Latitude, Longitude]

  lemma AllKinds(k: TagKind)
    ensures k in Kinds
  {
    match k
    case Country => assert Kinds[0] == k;
    case City => assert Kinds[1] == k;
    case Region => assert Kinds[2] == k;
    case Continent => assert Kinds[3] == k;
    case Latitude => assert Kinds[4] == k;
    case Longitude => assert Kinds[5] == k;
  }

  /** The first of `kinds` whose tag starts at position `i`. */
  function TagAtIn(s: string, i: nat, kinds: seq<TagKind>): (r: Option<TagKind>)
    ensures r.Some? ==> At(s, i, Tag(r.value))
    ensures r.None? ==> forall k :: k in kinds ==> !At(s, i, Tag(k))
  {
    if |kinds| == 0 then None
    else if At(s, i, Tag(kinds[0])) then Some(kinds[0])
    else TagAtIn(s, i, kinds[1..])
  }

  /** The tag starting at position `i`, if any (at most one can). */
  function TagAt(s: string, i: nat): (r: Option<TagKind>)
    ensures r.Some? ==> At(s, i, Tag(r.value))
    ensures r.None? ==> forall k :: !At(s, i, Tag(k))
  {
    var r := TagAtIn(s, i, Kinds);
    assert r.None? ==> forall k :: !At(s, i, Tag(k)) by {
      forall k ensures r.None? ==> !At(s, i, Tag(k)) { AllKinds(k); }
    }
    r
  }

  /** The leftmost position at or after `i` where a tag starts. */
  function FindTag(s: string, i: nat): (r: Option<nat>)
    requires i <= |s|
    ensures r.Some? ==> i <= r.value <= |s| && TagAt(s, r.value).Some?
    ensures r.Some? ==> forall j: nat :: i <= j < r.value ==> TagAt(s, j).None?
    ensures r.None? ==> forall j: nat :: i <= j <= |s| ==> TagAt(s, j).None?
    decreases |s| - i
  {
    if TagAt(s, i).Some? then Some(i)
    else if i == |s| then None
    else FindTag(s, i + 1)
  }

  /** The tag `preg_match` reports: the leftmost one in the text. */
  function FirstTag(s: string): (r: Option<TagKind>)
    ensures r.None? <==> forall j: nat, k :: j <= |s| ==> !At(s, j, Tag(k))
    ensures r.Some? ==> exists j: nat :: j <= |s| && At(s, j, Tag(r.value))
                          && forall j': nat, k :: j' < j ==> !At(s, j', Tag(k))
  {
    match FindTag(s, 0)
    case None =>
      assert forall j: nat, k :: j <= |s| ==> !At(s, j, Tag(k)) by {
        forall j: nat, k | j <= |s| ensures !At(s, j, Tag(k)) {
          assert TagAt(s, j).None?;
        }
      }
      None
    case Some(j) =>
      assert forall j': nat, k :: j' < j ==> !At(s, j', Tag(k)) by {
        forall j': nat, k | j' < j ensures !At(s, j', Tag(k)) {
          assert TagAt(s, j').None?;
        }
      }
      TagAt(s, j)
  }

  function ExactTagIn(s: string, kinds: seq<TagKind>): (r: Option<TagKind>)
    ensures r.Some? ==> s == Tag(r.value)
    ensures r.None? ==> forall k :: k in kinds ==> s != Tag(k)
  {
    if |kinds| == 0 then None
    else if s == Tag(kinds[0]) then Some(kinds[0])
    else ExactTagIn(s, kinds[1..])
  }

  /** The tag a default value is exactly equal to, if any (loose `==` between these strings is equality). */
  function ExactTag(s: string): (r: Option<TagKind>)
    ensures r.Some? ==> s == Tag(r.value)
    ensures r.None? ==> forall k :: s != Tag(k)
  {
    var r := ExactTagIn(s, Kinds);
    assert r.None? ==> forall k :: s != Tag(k) by {
      forall k ensures r.None? ==> s != Tag(k) { AllKinds(k); }
    }
    r
  }

  datatype Field = Field(id: nat, fieldType: string, defaultValue: string, caption: string)

  /** The form id (after `absint`) and its fields. */
  datatype Form = Form(id: nat, fields: seq<Field>)

  predicate IsHidden(f: Field) {
    f.fieldType == "hidden"
  }

  /** A hidden field whose default mentions a tag somewhere. */
  predicate Tagged(f: Field) {
    IsHidden(f) && FirstTag(f.defaultValue).Some?
  }

  /** A hidden field whose default is exactly a tag: the only kind that gets filled. */
  predicate Populates(f: Field) {
    IsHidden(f) && ExactTag(f.defaultValue).Some?
  }

  /** The posted input a field's value travels in. */
  function InputName(id: nat): string {
    "input_" + NatText(id)
  }

  /** The entry a tagged field gets in `fields_with_tags`. */
  function TagFor(f: Field): FieldTag
    requires Tagged(f)
  {
    var shown := if Truthy(Str(f.caption)) then f.caption else "Hidden Field #" + NatText(f.id);
    FieldTag(f.id, shown, TagName(FirstTag(f.defaultValue).value))
  }

  /** `fields_with_tags`: one entry per tagged field, in form order. */
  function TaggedFields(fields: seq<Field>): (tags: seq<FieldTag>)
    ensures |tags| <= |fields|
  {
    if |fields| == 0 then []
    else if Tagged(fields[0]) then [TagFor(fields[0])] + TaggedFields(fields[1..])
    else TaggedFields(fields[1..])
  }

  /** The list is empty exactly when no hidden field's default contains a tag. */
  lemma {:induction false} TaggedFieldsEmpty(fields: seq<Field>)
    ensures |TaggedFields(fields)| == 0 <==> forall i :: 0 <= i < |fields| ==> !Tagged(fields[i])
    decreases |fields|
  {
    if |fields| > 0 {
      var tail := fields[1..];
      TaggedFieldsEmpty(tail);
      if |TaggedFields(fields)| > 0 && !Tagged(fields[0]) {
        var i :| 0 <= i < |tail| && Tagged(tail[i]);
        assert fields[i + 1] == tail[i];
      }
      if |TaggedFields(fields)| == 0 {
        forall i | 0 < i < |fields| ensures !Tagged(fields[i]) {
          assert fields[i] == tail[i - 1];
        }
      }
    }
  }

  /** Every listed entry is the entry of some tagged field. */
  lemma {:induction false} TaggedFieldsSound(fields: seq<Field>)
    ensures forall t :: t in TaggedFields(fields) ==>
      exists i :: 0 <= i < |fields| && Tagged(fields[i]) && t == TagFor(fields[i])
    decreases |fields|
  {
    if |fields| > 0 {
      var tail := fields[1..];
      TaggedFieldsSound(tail);
      forall t | t in TaggedFields(fields)
        ensures exists i :: 0 <= i < |fields| && Tagged(fields[i]) && t == TagFor(fields[i])
      {
        if t !in TaggedFields(tail) {
          assert Tagged(fields[0]) && t == TagFor(fields[0]);
        } else {
          var i :| 0 <= i < |tail| && Tagged(tail[i]) && t == TagFor(tail[i]);
          assert fields[i + 1] == tail[i];
        }
      }
    }
  }

  /** Every tagged field is listed. */
  lemma {:induction false} TaggedFieldsComplete(fields: seq<Field>, i: nat)
    requires i < |fields| && Tagged(fields[i])
    ensures TagFor(fields[i]) in TaggedFields(fields)
    decreases |fields|
  {
    if i > 0 {
      TaggedFieldsComplete(fields[1..], i - 1);
      assert fields[1..][i - 1] == fields[i];
    }
  }

  /** The list is built in form order: one more field appends its own entry, if it has one, at the end. */
  lemma {:induction false} TaggedFieldsSnoc(front: seq<Field>, f: Field)
    ensures TaggedFields(front + [f]) == TaggedFields(front) + (if Tagged(f) then [TagFor(f)] else [])
    decreases |front|
  {
    if |front| == 0 {
      assert front + [f] == [f];
    } else {
      assert (front + [f])[1..] == front[1..] + [f];
      assert (front + [f])[0] == front[0];
      TaggedFieldsSnoc(front[1..], f);
    }
  }

  /** The value a tag is filled with: the record's field, or "" when it is not set. */
  function MappedValue(d: Record, k: TagKind): Value {
    if IsSet(Get(d, RecordKey(k))) then Get(d, RecordKey(k)) else Str("")
  }

  /** No later field is filled through the same input. */
  predicate LastWriter(fields: seq<Field>, i: nat)
    requires i < |fields|
  {
    forall j :: i < j < |fields| && Populates(fields[j]) ==> InputName(fields[j].id) != InputName(fields[i].id)
  }

  /** The `$_POST` writes of the population loop: fields are visited in order, so the last one wins. */
  /** No field's default is exactly a tag. */
  predicate NoneFilled(fields: seq<Field>) {
    forall i :: 0 <= i < |fields| ==> !Populates(fields[i])
  }

  function PostWrites(fields: seq<Field>, d: Record): (posts: map<string, Value>)
    ensures NoneFilled(fields) ==> posts == map[]
    decreases |fields|
  {
    if |fields| == 0 then map[]
    else
      var f := fields[|fields| - 1];
      var posts := PostWrites(fields[..|fields| - 1], d);
      if Populates(f) then posts[InputName(f.id) := MappedValue(d, ExactTag(f.defaultValue).value)]
      else posts
  }

  /** Some field whose default is a tag writes the input `key`. */
  predicate Written(fields: seq<Field>, key: string) {
    exists i :: 0 <= i < |fields| && Populates(fields[i]) && InputName(fields[i].id) == key
  }

  /** Exactly the inputs of fields whose default is a tag are written. */
  lemma {:induction false} PostWritesKeys(fields: seq<Field>, d: Record)
    ensures forall key :: key in PostWrites(fields, d) <==> Written(fields, key)
    decreases |fields|
  {
    if |fields| > 0 {
      var n := |fields| - 1;
      PostWritesKeys(fields[..n], d);
      assert fields == fields[..n] + [fields[n]];
      WrittenKeysStep(fields[..n], fields[n], d);
    }
  }

  /** One more field adds its own input, if it is filled, to those already written. */
  lemma {:induction false} WrittenKeysStep(front: seq<Field>, f: Field, d: Record)
    requires forall key :: key in PostWrites(front, d) <==> Written(front, key)
    ensures forall key :: key in PostWrites(front + [f], d) <==> Written(front + [f], key)
  {
    var fields := front + [f];
    var n := |front|;
    assert fields[..n] == front;
    var before := PostWrites(front, d);
    var posts := PostWrites(fields, d);
    assert posts.Keys == before.Keys + (if Populates(f) then {InputName(f.id)} else {});
    forall key ensures key in posts <==> Written(fields, key) {
      if key in before {
        var i :| 0 <= i < |front| && Populates(front[i]) && InputName(front[i].id) == key;
        assert fields[i] == front[i];
      }
      if Written(fields, key) {
        var i :| 0 <= i < |fields| && Populates(fields[i]) && InputName(fields[i].id) == key;
        if i < n {
          assert front[i] == fields[i];
          assert Written(front, key);
        }
      }
    }
  }

  /** The input field `i` fills holds its mapped value. */
  predicate HoldsValue(fields: seq<Field>, d: Record, i: nat)
    requires i < |fields| && Populates(fields[i])
  {
    InputName(fields[i].id) in PostWrites(fields, d) &&
    PostWrites(fields, d)[InputName(fields[i].id)] == MappedValue(d, ExactTag(fields[i].defaultValue).value)
  }

  /** Each written input holds the value of the last field using it. */
  lemma {:induction false} PostWritesValues(fields: seq<Field>, d: Record)
    ensures forall i :: 0 <= i < |fields| && Populates(fields[i]) && LastWriter(fields, i) ==> HoldsValue(fields, d, i)
    decreases |fields|
  {
    if |fields| > 0 {
      var n := |fields| - 1;
      PostWritesValues(fields[..n], d);
      assert fields == fields[..n] + [fields[n]];
      ValuesStep(fields[..n], fields[n], d);
    }
  }

  /** One more field keeps the values of the earlier last writers it does not overwrite, and adds its own. */
  lemma {:induction false} ValuesStep(front: seq<Field>, f: Field, d: Record)
    requires forall i :: 0 <= i < |front| && Populates(front[i]) && LastWriter(front, i) ==> HoldsValue(front, d, i)
    ensures forall i :: 0 <= i < |front + [f]| && Populates((front + [f])[i]) && LastWriter(front + [f], i) ==>
      HoldsValue(front + [f], d, i)
  {
    var fields := front + [f];
    var n := |front|;
    assert fields[..n] == front;
    forall i | 0 <= i < |fields| && Populates(fields[i]) && LastWriter(fields, i)
      ensures HoldsValue(fields, d, i)
    {
      if i < n {
        assert front[i] == fields[i];
        assert LastWriter(front, i) by {
          forall j | i < j < |front| && Populates(front[j])
            ensures InputName(front[j].id) != InputName(front[i].id)
          {
            assert front[j] == fields[j];
          }
        }
        assert HoldsValue(front, d, i);
        assert !Populates(f) || InputName(f.id) != InputName(fields[i].id) by {
          assert fields[n] == f;
        }
      }
    }
  }

  /** What population leaves behind: the posted values, the pending notes, the caches, the URL requested. */
  datatype FieldOutcome = FieldOutcome(posts: map<string, Value>, annotations: Annotations, stores: Stores, requested: Option<string>)

  /** `set_ip_location_field_values`. */
  function SetFieldValues(env: Env, cfg: Config, provider: string -> ProviderOutcome, stores: Stores,
                          notes: Annotations, form: Form, rawIp: string): (out: FieldOutcome)
    ensures |TaggedFields(form.fields)| == 0 ==> out == FieldOutcome(map[], notes, stores, None)
    ensures |TaggedFields(form.fields)| > 0 ==>
      var res := Resolve(env, cfg, provider, stores, rawIp);
      && out.stores == res.stores && out.requested == res.requested
      && (|res.record| == 0 ==> out.posts == map[] && out.annotations == notes)
      && (|res.record| > 0 && IsError(res.record) ==>
            out.posts == map[] && out.annotations == RecordMergeError(notes, form.id, res.record, TaggedFields(form.fields)))
      && (|res.record| > 0 && !IsError(res.record) ==>
            out.posts == PostWrites(form.fields, res.record)
            && out.annotations == RecordMerge(notes, form.id, res.record, TaggedFields(form.fields)))
  {
    var tags := TaggedFields(form.fields);
    if |tags| == 0 then FieldOutcome(map[], notes, stores, None)
    else
      var res := Resolve(env, cfg, provider, stores, rawIp);
      var d := res.record;
      if |d| == 0 then FieldOutcome(map[], notes, res.stores, res.requested)
      else if IsError(d) then
        FieldOutcome(map[], RecordMergeError(notes, form.id, d, tags), res.stores, res.requested)
      else
        FieldOutcome(PostWrites(form.fields, d), RecordMerge(notes, form.id, d, tags), res.stores, res.requested)
  }

  /** The replacements `replace_ip_location_merge_tags` makes, in its order, each only when the field is set. */
  function ReplaceTags(text: string, d: Record): (r: string)
    ensures |d| == 0 ==> r == text
    ensures (forall j :: 0 <= j < |text| ==> text[j] != '{') ==> r == text
  {
    BraceFreeUntouched(text, d);
    ReplaceEach(text, d, Kinds)
  }

  /** The record sets none of the fields `kinds` stand for. */
  predicate NoneSet(d: Record, kinds: seq<TagKind>) {
    forall j :: 0 <= j < |kinds| ==> !IsSet(Get(d, RecordKey(kinds[j])))
  }

  /** The replacements for `kinds`, in order; a tag whose record value is not set is left alone. */
  function ReplaceEach(text: string, d: Record, kinds: seq<TagKind>): (r: string)
    ensures |d| == 0 || NoneSet(d, kinds) ==> r == text
    decreases |kinds|
  {
    if |kinds| == 0 then text
    else
      var k := kinds[0];
      var v := Get(d, RecordKey(k));
      var next := if |d| > 0 && IsSet(v) then ReplaceAll(text, Tag(k), Text(v)) else text;
      ReplaceEach(next, d, kinds[1..])
  }

  /** The merge-tag filter's result and the caches afterwards. */
  datatype Replaced = Replaced(result: Value, stores: Stores, requested: Option<string>)

  /**
   `replace_ip_location_merge_tags`: text without a location tag, or without
   an entry, comes back as it is; otherwise every tag whose record value is
   set is replaced by it.
   */
  function ReplaceMergeTags(env: Env, cfg: Config, provider: string -> ProviderOutcome, stores: Stores,
                            text: string, hasEntry: bool, rawIp: string): (out: Replaced)
    ensures FirstTag(text).None? || !hasEntry ==> out == Replaced(Str(text), stores, None)
    ensures out.result.Str?
    ensures FirstTag(text).Some? && hasEntry ==>
      var res := Resolve(env, cfg, provider, stores, rawIp);
      out.stores == res.stores && out.requested == res.requested
      && out.result == Str(ReplaceTags(text, res.record))
  {
    if FirstTag(text).None? || !hasEntry then Replaced(Str(text), stores, None)
    else
      var res := Resolve(env, cfg, provider, stores, rawIp);
      Replaced(Str(ReplaceTags(text, res.record)), res.stores, res.requested)
  }

  // ---------------------------------------------------------------------------
  // Facts about tags
  // ---------------------------------------------------------------------------

  predicate Lower(s: string) {
    forall j :: 0 <= j < |s| ==> 'a' <= s[j] <= 'z'
  }

  lemma {:induction false} NamesAreLower(k: TagKind)
    ensures Lower(TagName(k)) && |TagName(k)| > 0
  {
    var s := TagName(k);
    forall j | 0 <= j < |s| ensures 'a' <= s[j] <= 'z' {
      match k
      case Country => assert s == ['c','o','u','n','t','r','y'];
      case City => assert s == ['c','i','t','y'];
      case Region => assert s == ['r','e','g','i','o','n'];
      case Continent => assert s == ['c','o','n','t','i','n','e','n','t'];
      case Latitude => assert s == ['l','a','t','i','t','u','d','e'];
      case Longitude => assert s == ['l','o','n','g','i','t','u','d','e'];
    }
  }

  /** '{' appears in a tag only at its start, '}' only at its end. */
  lemma {:induction false} BracesAtEnds(k: TagKind)
    ensures Tag(k)[0] == '{' && Tag(k)[|Tag(k)| - 1] == '}'
    ensures forall j :: 0 < j < |Tag(k)| ==> Tag(k)[j] != '{'
    ensures forall j :: 0 <= j < |Tag(k)| - 1 ==> Tag(k)[j] != '}'
  {
    NamesAreLower(k);
    var n := TagName(k);
    var t := Tag(k);
    assert |t| == 7 + |n|;
    forall j | 6 <= j < 6 + |n| ensures t[j] == n[j - 6] { }
    forall j | 0 < j < 6 ensures t[j] == "user:"[j - 1] { }
  }

  lemma TagNameInjective(k: TagKind, k2: TagKind)
    requires TagName(k) == TagName(k2)
    ensures k == k2
  {
  }

  /** One tag occurs inside another only as the whole of it. */
  lemma {:induction false} TagOnlyInItself(k: TagKind, k2: TagKind, i: nat)
    requires At(Tag(k), i, Tag(k2))
    ensures i == 0 && k == k2
  {
    var t := Tag(k);
    var u := Tag(k2);
    BracesAtEnds(k);
    BracesAtEnds(k2);
    assert t[i] == u[0] by { assert t[i..i + |u|][0] == u[0]; }
    var e := |u| - 1;
    assert t[e] == u[e] by { assert t[i..i + |u|][e] == u[e]; }
    assert |u| == |t|;
    assert t == u by { assert t[..|u|] == u; }
    assert TagName(k) == t[6..|t| - 1];
    assert TagName(k2) == u[6..|u| - 1];
    TagNameInjective(k, k2);
  }

  /** A default that is exactly a tag is detected with that tag. */
  lemma {:induction false} ExactTagIsFirstTag(k: TagKind)
    ensures FirstTag(Tag(k)) == Some(k)
  {
    var s := Tag(k);
    assert At(s, 0, s);
    var r := FirstTag(s);
    var j: nat :| j <= |s| && At(s, j, Tag(r.value)) && forall j': nat, k' :: j' < j ==> !At(s, j', Tag(k'));
    TagOnlyInItself(k, r.value, j);
  }

  /** Every filled field is also listed, with the name of the tag it is filled from. */
  lemma PopulatesIsTagged(fields: seq<Field>, i: nat)
    requires i < |fields| && Populates(fields[i])
    ensures Tagged(fields[i]) && TagFor(fields[i]) in TaggedFields(fields)
    ensures TagFor(fields[i]).tagType == TagName(ExactTag(fields[i].defaultValue).value)
  {
    ExactTagIsFirstTag(ExactTag(fields[i].defaultValue).value);
    TaggedFieldsComplete(fields, i);
  }

  /** A tag after some other text is detected but the field is not filled. */
  lemma {:induction false} EmbeddedTagNotPopulated(f: Field, prefix: string, k: TagKind)
    requires IsHidden(f) && prefix != "" && f.defaultValue == prefix + Tag(k)
    ensures Tagged(f) && !Populates(f)
  {
    var s := f.defaultValue;
    assert At(s, |prefix|, Tag(k)) by { assert s[|prefix|..|prefix| + |Tag(k)|] == Tag(k); }
    if ExactTag(s).Some? {
      var k2 := ExactTag(s).value;
      assert At(Tag(k2), |prefix|, Tag(k));
      TagOnlyInItself(k2, k, |prefix|);
    }
  }

  /** A text without '{' contains no tag, so replacing tags in it changes nothing. */
  lemma {:induction false} NoBraceNoTag(v: string, k: TagKind)
    requires forall j :: 0 <= j < |v| ==> v[j] != '{'
    ensures !Contains(v, Tag(k))
  {
    BracesAtEnds(k);
    forall i: nat | i <= |v| ensures !At(v, i, Tag(k)) {
      if i + |Tag(k)| <= |v| {
        assert v[i..i + |Tag(k)|][0] == v[i] != Tag(k)[0];
      }
    }
  }

  lemma {:induction false} ReplaceEachUntouched(text: string, d: Record, kinds: seq<TagKind>)
    requires forall j :: 0 <= j < |text| ==> text[j] != '{'
    ensures ReplaceEach(text, d, kinds) == text
    decreases |kinds|
  {
    if |kinds| > 0 {
      NoBraceNoTag(text, kinds[0]);
      ReplaceAllAbsent(text, Tag(kinds[0]), Text(Get(d, RecordKey(kinds[0]))));
      ReplaceEachUntouched(text, d, kinds[1..]);
    }
  }

  lemma BraceFreeUntouched(text: string, d: Record)
    ensures (forall j :: 0 <= j < |text| ==> text[j] != '{') ==> ReplaceEach(text, d, Kinds) == text
  {
    if forall j :: 0 <= j < |text| ==> text[j] != '{' {
      ReplaceEachUntouched(text, d, Kinds);
    }
  }

  lemma {:induction false} ReplaceEachSkipsOthers(k: TagKind, d: Record, kinds: seq<TagKind>)
    requires k !in kinds
    ensures ReplaceEach(Tag(k), d, kinds) == Tag(k)
    decreases |kinds|
  {
    if |kinds| > 0 {
      if Contains(Tag(k), Tag(kinds[0])) {
        var i: nat :| i <= |Tag(k)| && At(Tag(k), i, Tag(kinds[0]));
        TagOnlyInItself(k, kinds[0], i);
      }
      ReplaceAllAbsent(Tag(k), Tag(kinds[0]), Text(Get(d, RecordKey(kinds[0]))));
      ReplaceEachSkipsOthers(k, d, kinds[1..]);
    }
  }

  /**
   A text that is exactly one tag becomes the record's value for it, when
   that value is set and its text has no '{'.
   */
  lemma {:induction false} SingleTagReplaced(k: TagKind, d: Record)
    requires IsSet(Get(d, RecordKey(k)))
    requires var v := Text(Get(d, RecordKey(k))); forall j :: 0 <= j < |v| ==> v[j] != '{'
    ensures ReplaceTags(Tag(k), d) == Text(Get(d, RecordKey(k)))
  {
    var before, after := KindSplit(k);
    ReplaceEachSplit(Tag(k), d, before, k, after);
    ReplaceEachSkipsOthers(k, d, before);
    OwnTagReplaced(k, d);
    ReplaceEachUntouched(Text(Get(d, RecordKey(k))), d, after);
  }

  /** The tags before `k` in the source's order, and those after it. */
  lemma KindSplit(k: TagKind) returns (before: seq<TagKind>, after: seq<TagKind>)
    ensures Kinds == before + [k] + after && k !in before
  {
    var i := match k
      case Country => 0 case City => 1 case Region => 2
      case Continent => 3 case Latitude => 4 case Longitude => 5;
    assert Kinds[i] == k;
    before, after := Kinds[..i], Kinds[i + 1..];
    assert Kinds == before + [k] + after;
  }

  /** A tag's own replacement turns the tag into the record's value for it. */
  lemma OwnTagReplaced(k: TagKind, d: Record)
    requires IsSet(Get(d, RecordKey(k)))
    ensures ReplaceEach(Tag(k), d, [k]) == Text(Get(d, RecordKey(k)))
  {
    var v := Text(Get(d, RecordKey(k)));
    assert RecordKey(k) in d;
    assert ReplaceAll(Tag(k), Tag(k), v) == v by {
      ReplaceAllFront(Tag(k), "", v);
      assert Tag(k) + "" == Tag(k);
    }
    assert ReplaceEach(v, d, []) == v;
  }

  lemma {:induction false} ReplaceEachSplit(text: string, d: Record, before: seq<TagKind>, k: TagKind, after: seq<TagKind>)
    ensures ReplaceEach(text, d, before + [k] + after) ==
      ReplaceEach(ReplaceEach(ReplaceEach(text, d, before), d, [k]), d, after)
    decreases |before|
  {
    if |before| == 0 {
      assert before + [k] + after == [k] + after;
      assert ([k] + after)[1..] == after;
    } else {
      var v := Get(d, RecordKey(before[0]));
      var next := if |d| > 0 && IsSet(v) then ReplaceAll(text, Tag(before[0]), Text(v)) else text;
      assert (before + [k] + after)[1..] == before[1..] + [k] + after;
      ReplaceEachSplit(next, d, before[1..], k, after);
    }
  }

  /** A message that is a single location tag comes back as the resolved value of that tag. */
  lemma {:induction false} TagMessageFilled(env: Env, cfg: Config, provider: string -> ProviderOutcome, stores: Stores,
                                            rawIp: string, k: TagKind)
    requires var d := Resolve(env, cfg, provider, stores, rawIp).record;
      IsSet(Get(d, RecordKey(k))) && forall j :: 0 <= j < |Text(Get(d, RecordKey(k)))| ==> Text(Get(d, RecordKey(k)))[j] != '{'
    ensures ReplaceMergeTags(env, cfg, provider, stores, Tag(k), true, rawIp).result ==
      Str(Text(Get(Resolve(env, cfg, provider, stores, rawIp).record, RecordKey(k))))
  {
    ExactTagIsFirstTag(k);
    SingleTagReplaced(k, Resolve(env, cfg, provider, stores, rawIp).record);
  }
}
