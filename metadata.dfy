/** README front matter and the repository fields taken from it. */
module Metadata {
  import opened Common
  import opened PyText

  /** A YAML value as `yaml.safe_load` returns it, without its floats and timestamps. */
  datatype YamlValue =
    | Null
    | Flag(b: bool)
    | Number(n: int)
    | Text(s: string)
    | List(items: seq<YamlValue>)
    | Mapping(entries: map<string, YamlValue>)

  /** Python truthiness of a loaded value. */
  predicate Truthy(v: YamlValue)
  {
    match v
    case Null => false
    case Flag(b) => b
    case Number(n) => n != 0
    case Text(s) => s != []
    case List(items) => items != []
    case Mapping(entries) => entries != map[]
  }

  /** The front-matter delimiter. */
  const Delimiter: string := "---"

  /** The text between the leading `---` and the next one, when both are
      there. */
  function FrontMatterText(content: string): (r: Option<string>)
    ensures r.Some? ==> StartsWith(content, Delimiter + r.value + Delimiter)
    ensures r.Some? ==> forall k: nat :: !OccursAt(r.value, Delimiter, k)
    ensures r.None? && StartsWith(content, Delimiter) ==> forall k: nat :: !OccursAt(content[3..], Delimiter, k)
  {
    if !StartsWith(content, Delimiter) then None
    else
      var parts := SplitTwice(content, Delimiter);
      if |parts| < 3 then None
      else FrontMatterFacts(content); Some(parts[1])
  }

  /** What `split("---", 2)` does to text that starts with `---`. */
  lemma {:induction false} FrontMatterFacts(content: string)
    requires StartsWith(content, Delimiter)
    ensures Find(content, Delimiter, 0) == Some(0)
    ensures var parts := SplitTwice(content, Delimiter);
            (|parts| == 3 ==> parts[0] == [] && StartsWith(content, Delimiter + parts[1] + Delimiter)
                               && forall k: nat :: !OccursAt(parts[1], Delimiter, k))
            && (|parts| < 3 ==> forall k: nat :: !OccursAt(content[3..], Delimiter, k))
  {
    assert OccursAt(content, Delimiter, 0);
    var parts := SplitTwice(content, Delimiter);
    if |parts| == 3 {
      SplitTwiceRejoins(content, Delimiter);
      SplitTwiceMiddle(content, Delimiter);
      assert content == Delimiter + parts[1] + Delimiter + parts[2];
      assert (Delimiter + parts[1] + Delimiter + parts[2])[..|Delimiter + parts[1] + Delimiter|]
             == Delimiter + parts[1] + Delimiter;
    }
  }

  /** `parse_readme_metadata`: the front matter loaded by `safeLoad` (None
      where it raises) when it is a mapping, else the empty mapping. */
  function ParseReadmeMetadata(content: string, safeLoad: string -> Option<YamlValue>): (r: map<string, YamlValue>)
    ensures !StartsWith(content, Delimiter) ==> r == map[]
    ensures r != map[] ==> FrontMatterText(content).Some?
                           && safeLoad(FrontMatterText(content).value) == Some(Mapping(r))
    ensures FrontMatterText(content).Some? && safeLoad(FrontMatterText(content).value).Some?
            && safeLoad(FrontMatterText(content).value).value.Mapping?
            ==> r == safeLoad(FrontMatterText(content).value).value.entries
  {
    match FrontMatterText(content)
    case None => map[]
    case Some(yamlText) =>
      match safeLoad(yamlText)
      case Some(Mapping(data)) => data
      case _ => map[]
  }

  /** A README written as `---`, front matter, `---`, body gives back
      exactly that front matter, when the front matter holds no `---` and
      does not end in `-` (which would make the closing `---` start early). */
  lemma {:induction false} FrontMatterRoundTrip(yamlText: string, body: string)
    requires forall k: nat :: !OccursAt(yamlText, Delimiter, k)
    requires yamlText == [] || yamlText[|yamlText| - 1] != '-'
    ensures FrontMatterText(Delimiter + yamlText + Delimiter + body) == Some(yamlText)
  {
    var content := Delimiter + yamlText + Delimiter + body;
    var rest := content[3..];
    assert rest == yamlText + Delimiter + body;
    assert OccursAt(rest, Delimiter, |yamlText|) by {
      assert rest[|yamlText|..|yamlText| + 3] == Delimiter;
    }
    FirstOccurrence(rest, yamlText, Delimiter + body);
    assert StartsWith(content, Delimiter) by {
      assert content[..3] == Delimiter;
    }
    FrontMatterFacts(content);
    var parts := SplitTwice(content, Delimiter);
    assert parts[1] == rest[..|yamlText|];
    assert rest[..|yamlText|] == yamlText;
  }

  /** When `pre` holds no `---` and does not end in `-`, the `---` that
      starts `post` is the first one of `pre + post`. */
  lemma {:induction false} FirstOccurrence(s: string, pre: string, post: string)
    requires s == pre + post && StartsWith(post, Delimiter)
    requires forall k: nat :: !OccursAt(pre, Delimiter, k)
    requires pre == [] || pre[|pre| - 1] != '-'
    ensures Find(s, Delimiter, 0) == Some(|pre|)
  {
    assert OccursAt(s, Delimiter, |pre|) by {
      assert s[|pre|..|pre| + 3] == post[..3];
    }
    forall k: nat | k < |pre|
      ensures !OccursAt(s, Delimiter, k)
    {
      if k + 3 <= |pre| {
        assert s[k..k + 3] == pre[k..k + 3];
        assert !OccursAt(pre, Delimiter, k);
      } else {
        assert s[k..k + 3][|pre| - 1 - k] == pre[|pre| - 1];
      }
    }
  }

  /** Text that does not start with `---` has no front matter. */
  lemma NoLeadingDelimiterNoMetadata(content: string, safeLoad: string -> Option<YamlValue>)
    requires !StartsWith(content, Delimiter)
    ensures FrontMatterText(content) == None && ParseReadmeMetadata(content, safeLoad) == map[]
  {
  }

  // ---------------------------------------------------------------------------
  // update_repository_metadata

  /** The three repository fields the update writes. */
  datatype RepoFields = RepoFields(license: YamlValue, pipelineTag: YamlValue, tags: Option<string>)

  /** `metadata.get(key, default)`. */
  function Get(metadata: map<string, YamlValue>, key: string, default: YamlValue): YamlValue
  {
    if key in metadata then metadata[key] else default
  }

  /** One of license and pipeline_tag: replaced when the new value is
      present, truthy and different. */
  function UpdatedField(current: YamlValue, value: YamlValue): (r: YamlValue)
    ensures r != current ==> r == value && Truthy(value)
    ensures Truthy(value) ==> r == value
    ensures !Truthy(value) ==> r == current
  {
    if Truthy(value) && current != value then value else current
  }

  /** The tags: a list is stored as its JSON text, anything else is ignored. */
  function UpdatedTags(current: Option<string>, value: YamlValue, jsonDumps: seq<YamlValue> -> string)
    : (r: Option<string>)
    ensures value.List? ==> r == Some(jsonDumps(value.items))
    ensures !value.List? ==> r == current
  {
    if value.List? && current != Some(jsonDumps(value.items)) then Some(jsonDumps(value.items)) else current
  }

  /** The fields after the update, and whether any changed. */
  function Updated(fields: RepoFields, metadata: map<string, YamlValue>, jsonDumps: seq<YamlValue> -> string)
    : (r: (RepoFields, bool))
    ensures r.1 <==> r.0 != fields
  {
    var next := RepoFields(
      UpdatedField(fields.license, Get(metadata, "license", Null)),
      UpdatedField(fields.pipelineTag, Get(metadata, "pipeline_tag", Null)),
      UpdatedTags(fields.tags, Get(metadata, "tags", List([])), jsonDumps));
    (next, next != fields)
  }

  /** Updating twice with the same metadata changes nothing the second time. */
  lemma UpdateIdempotent(fields: RepoFields, metadata: map<string, YamlValue>, jsonDumps: seq<YamlValue> -> string)
    ensures var once := Updated(fields, metadata, jsonDumps).0;
            Updated(once, metadata, jsonDumps) == (once, false)
  {
  }

  /** Without a "tags" key the tags become the JSON text of the empty list. */
  lemma MissingTagsAreEmpty(fields: RepoFields, metadata: map<string, YamlValue>, jsonDumps: seq<YamlValue> -> string)
    requires "tags" !in metadata
    ensures Updated(fields, metadata, jsonDumps).0.tags == Some(jsonDumps([]))
  {
  }

  /** The repository row; `saves` counts the calls to `save()`. */
  class Repository {
    var license: YamlValue
    var pipelineTag: YamlValue
    var tags: Option<string>
    var saves: nat

    constructor (license: YamlValue, pipelineTag: YamlValue, tags: Option<string>)
      ensures this.license == license && this.pipelineTag == pipelineTag && this.tags == tags
      ensures saves == 0
    {
      this.license := license;
      this.pipelineTag := pipelineTag;
      this.tags := tags;
      saves := 0;
    }

    function Fields(): RepoFields
      reads this
    {
      RepoFields(license, pipelineTag, tags)
    }

    /** `update_repository_metadata`: write the changed fields, save only
        when something changed, and report whether it did. */
    method UpdateRepositoryMetadata(metadata: map<string, YamlValue>, jsonDumps: seq<YamlValue> -> string)
      returns (changed: bool)
      modifies this
      ensures (Fields(), changed) == Updated(old(Fields()), metadata, jsonDumps)
      ensures changed <==> Fields() != old(Fields())
      ensures saves == old(saves) + (if changed then 1 else 0)
    {
      changed := false;
      var licenseVal := Get(metadata, "license", Null);
      if Truthy(licenseVal) && license != licenseVal {
        license := licenseVal;
        changed := true;
      }
      var pipelineTagVal := Get(metadata, "pipeline_tag", Null);
      if Truthy(pipelineTagVal) && pipelineTag != pipelineTagVal {
        pipelineTag := pipelineTagVal;
        changed := true;
      }
      var tagsVal := Get(metadata, "tags", List([]));
      if tagsVal.List? {
        var tagsJson := jsonDumps(tagsVal.items);
        if tags != Some(tagsJson) {
          tags := Some(tagsJson);
          changed := true;
        }
      }
      if changed {
        saves := saves + 1;
      }
    }
  }
}
