/**
 * Metadata carried by nodes and schemas (comments, `$key=value`
 * attributes, `#tags`) and the `MetaInfo` scratch bag the decoder fills
 * from `/ ... /` blocks, which also carries the `!required` flag.
 */
module Meta {
  import opened Values
  import opened OrderedMap

  type Attrs = OMap<string, Value>

  /** The metadata fields of one object, read at a point in time. */
  datatype MetaData = MetaData(comments: seq<string>, attr: Attrs, tags: seq<string>, required: bool)

  const EmptyMeta := MetaData([], [], [], false)

  /** `MetaInfo.__bool__`: some metadata was collected. */
  function Truthy(m: MetaData): (b: bool)
    ensures b <==> m != EmptyMeta
  {
    m.attr != [] || m.tags != [] || m.comments != [] || m.required
  }

  /**
   * `Meta.apply_common_meta`: comments and tags are appended after the
   * existing ones, attributes are merged with `dict.update`; `required` is
   * left alone.
   */
  function ApplyCommon(into: MetaData, info: MetaData): MetaData
  {
    into.(comments := into.comments + info.comments,
          attr := Update(into.attr, info.attr),
          tags := into.tags + info.tags)
  }

  /** `Meta.clear_common_meta`: all three collections emptied, `required` untouched. */
  function ClearCommon(m: MetaData): (r: MetaData)
    ensures r.comments == [] && r.attr == [] && r.tags == [] && r.required == m.required
  {
    m.(comments := [], attr := [], tags := [])
  }

  /** `MetaInfo.apply_meta`: the common merge, then `required` is overwritten. */
  function ApplyInfo(into: MetaData, info: MetaData): MetaData
  {
    ApplyCommon(into, info).(required := info.required)
  }

  /**
   * What the common merge promises: old comments and tags first and the
   * incoming ones after them in order; every old attribute key keeps its
   * place, new keys follow in the incoming order; an incoming key wins, any
   * other key keeps its value; `required` is not touched.
   */
  lemma ApplyCommonSpec(into: MetaData, info: MetaData, k: string)
    requires Distinct(Keys(info.attr))
    ensures var r := ApplyCommon(into, info);
      && r.comments[..|into.comments|] == into.comments
      && r.comments[|into.comments|..] == info.comments
      && r.tags[..|into.tags|] == into.tags
      && r.tags[|into.tags|..] == info.tags
      && Keys(r.attr) == Keys(into.attr) + NewKeys(Keys(info.attr), Keys(into.attr))
      && Get(r.attr, k) == (if k in Keys(info.attr) then Get(info.attr, k) else Get(into.attr, k))
      && r.required == into.required
  {
    UpdateKeys(into.attr, info.attr);
    UpdateGet(into.attr, info.attr, k);
  }

  /** `MetaInfo.apply_meta` can turn `required` from true to false. */
  lemma ApplyInfoOverwritesRequired(into: MetaData, info: MetaData)
    ensures ApplyInfo(into, info).required == info.required
    ensures into.required && !info.required ==> !ApplyInfo(into, info).required
  {
  }

  /** Merging keeps attribute keys unique. */
  lemma ApplyCommonKeepsKeysDistinct(into: MetaData, info: MetaData)
    requires Distinct(Keys(into.attr))
    ensures Distinct(Keys(ApplyCommon(into, info).attr))
  {
    UpdateDistinct(into.attr, info.attr);
  }

  /** The decoder's scratch bag for metadata read ahead of the object it belongs to. */
  class MetaInfo {
    var attr: Attrs
    var comments: seq<string>
    var tags: seq<string>
    var required: bool

    function Content(): MetaData
      reads this
    {
      MetaData(comments, attr, tags, required)
    }

    constructor()
      ensures Content() == EmptyMeta
    {
      attr := [];
      comments := [];
      tags := [];
      required := false;
    }

    /** `MetaInfo.apply_meta` with the incoming object's metadata `info`. */
    method ApplyMeta(info: MetaData)
      modifies this
      ensures Content() == ApplyInfo(old(Content()), info)
    {
      if info.comments != [] {
        comments := comments + info.comments;
      }
      if info.attr != [] {
        attr := Update(attr, info.attr);
      }
      if info.tags != [] {
        tags := tags + info.tags;
      }
      required := info.required;
    }

    /** `MetaInfo.__bool__`. */
    predicate IsTruthy()
      reads this
    {
      Truthy(Content())
    }
  }
}
