/** Manifest documents: JSON values and the references the registry reads out of them. */
module Manifests {
  import opened Common

  datatype Json =
    | Null
    | Bool(b: bool)
    | Number(n: int)
    | String(s: string)
    | Array(items: seq<Json>)
    | Object(fields: map<string, Json>)
  {
    function Get(key: string): Option<Json> {
      if Object? && key in fields then Some(fields[key]) else None
    }

    function AsString(): Option<string> {
      if String? then Some(s) else None
    }

    /** The string under `key`, when this is an object holding one there. */
    function GetString(key: string): Option<string> {
      match Get(key)
      case Some(v) => v.AsString()
      case None => None
    }

    function GetArray(key: string): seq<Json> {
      match Get(key)
      case Some(Array(items)) => items
      case _ => []
    }
  }

  /** The `digest` strings of a list of descriptors, in order; entries without one are skipped. */
  function DescriptorDigests(items: seq<Json>): seq<Digest> {
    if items == [] then []
    else (match items[0].GetString("digest") case Some(d) => [d] case None => []) + DescriptorDigests(items[1..])
  }

  function ConfigDigest(v: Json): Option<Digest> {
    match v.Get("config")
    case Some(c) => c.GetString("digest")
    case None => None
  }

  function BlobRefs(v: Json): seq<Digest> {
    (match ConfigDigest(v) case Some(d) => [d] case None => []) + DescriptorDigests(v.GetArray("layers"))
  }

  function ChildRefs(v: Json): seq<Digest> {
    DescriptorDigests(v.GetArray("manifests"))
  }

  /** `subject.digest`, with `artifactType`, else `config.mediaType`, else "". */
  function Subject(v: Json): Option<(Digest, string)> {
    match v.Get("subject")
    case None => None
    case Some(subject) =>
      match subject.GetString("digest")
      case None => None
      case Some(d) =>
        match v.GetString("artifactType")
        case Some(a) => Some((d, a))
        case None =>
          match v.Get("config")
          case None => Some((d, ""))
          case Some(c) =>
            match c.GetString("mediaType")
            case Some(m) => Some((d, m))
            case None => Some((d, ""))
  }

  /** The children are the digests under `manifests`, in order, and nothing else of the document. */
  lemma ChildRefsComplete(v: Json, d: Digest)
    ensures d in ChildRefs(v) <==>
            exists i | 0 <= i < |v.GetArray("manifests")| :: v.GetArray("manifests")[i].GetString("digest") == Some(d)
  {
    DescriptorDigestsComplete(v.GetArray("manifests"), d);
  }

  /** A subject is named by its digest alone; its type is the artifact's own, before the config's, before none. */
  lemma SubjectExactly(v: Json, d: Digest, artifactType: string)
    ensures var own := v.GetString("artifactType");
            var config := match v.Get("config") case Some(c) => c.GetString("mediaType") case None => None;
            Subject(v) == Some((d, artifactType)) <==>
              && v.Get("subject").Some? && v.Get("subject").value.GetString("digest") == Some(d)
              && (own.Some? ==> artifactType == own.value)
              && (own.None? && config.Some? ==> artifactType == config.value)
              && (own.None? && config.None? ==> artifactType == "")
  {
  }

  /** `parse_blob_refs_value`: the config digest, then each layer's digest. */
  method ParseBlobRefs(v: Json) returns (refs: seq<Digest>)
    ensures refs == BlobRefs(v)
  {
    refs := [];
    var config := ConfigDigest(v);
    if config.Some? {
      refs := refs + [config.value];
    }
    var layers := v.GetArray("layers");
    ghost var first := refs;
    assert layers[0..] == layers && BlobRefs(v) == first + DescriptorDigests(layers);
    for i := 0 to |layers|
      invariant refs + DescriptorDigests(layers[i..]) == first + DescriptorDigests(layers)
    {
      assert layers[i..][0] == layers[i] && layers[i..][1..] == layers[i + 1..];
      var d := layers[i].GetString("digest");
      if d.Some? {
        refs := refs + [d.value];
      }
    }
    assert DescriptorDigests(layers[|layers|..]) == [];
    assert refs == first + DescriptorDigests(layers);
  }

  /** A digest is listed exactly when some descriptor carries it. */
  lemma {:induction false} DescriptorDigestsComplete(items: seq<Json>, d: Digest)
    ensures d in DescriptorDigests(items) <==> exists i | 0 <= i < |items| :: items[i].GetString("digest") == Some(d)
  {
    if items != [] {
      DescriptorDigestsComplete(items[1..], d);
      var rest := items[1..];
      assert forall i | 0 <= i < |rest| :: rest[i] == items[i + 1];
      if exists i | 0 <= i < |items| :: items[i].GetString("digest") == Some(d) {
        var i :| 0 <= i < |items| && items[i].GetString("digest") == Some(d);
        assert i > 0 ==> rest[i - 1].GetString("digest") == Some(d);
      }
    }
  }

  lemma BlobRefsComplete(v: Json, d: Digest)
    ensures d in BlobRefs(v) <==>
            || ConfigDigest(v) == Some(d)
            || exists i | 0 <= i < |v.GetArray("layers")| :: v.GetArray("layers")[i].GetString("digest") == Some(d)
  {
    DescriptorDigestsComplete(v.GetArray("layers"), d);
  }
}
