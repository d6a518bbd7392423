/** Node ids: a bare file path, or `path::kind::name`. */
module NodeIds {

  predicate SeparatorAt(id: string, k: nat) {
    k + 1 < |id| && id[k] == ':' && id[k + 1] == ':'
  }

  /** The first `::` at or after `from`, or the length when there is none. */
  function SeparatorFrom(id: string, from: nat): (i: nat)
    requires from <= |id|
    ensures from <= i <= |id|
    ensures i == |id| || SeparatorAt(id, i)
    ensures forall k :: from <= k < i ==> !SeparatorAt(id, k)
    decreases |id| - from
  {
    if from == |id| || SeparatorAt(id, from) then from else SeparatorFrom(id, from + 1)
  }

  predicate IsWholeFile(id: string) {
    SeparatorFrom(id, 0) == |id|
  }

  /** The file a node id lives in: everything before the first `::`. */
  function FilePath(id: string): string {
    id[..SeparatorFrom(id, 0)]
  }

  /** Whether an id's second component is `module_header`. */
  predicate IsHeader(id: string) {
    !IsWholeFile(id) &&
    var kind := SeparatorFrom(id, 0) + 2;
    id[kind..SeparatorFrom(id, kind)] == "module_header"
  }

  // ------------------------------------------------------------ in terms of the text

  /** `file` is the whole id, which has no `::`, or what stands before its first `::`. */
  ghost predicate LivesIn(id: string, file: string) {
    && (forall k :: 0 <= k < |file| ==> !SeparatorAt(id, k))
    && (id == file || exists rest :: id == file + "::" + rest)
  }

  lemma FirstSeparator(id: string, from: nat, i: nat)
    requires from <= i <= |id| && (i == |id| || SeparatorAt(id, i))
    requires forall k :: from <= k < i ==> !SeparatorAt(id, k)
    ensures SeparatorFrom(id, from) == i
  {
    var j := SeparatorFrom(id, from);
    assert !(j < i) && !(i < j);
  }

  /** Every id lives in exactly one file. */
  lemma FilePathIs(id: string, file: string)
    ensures FilePath(id) == file <==> LivesIn(id, file)
  {
    var i := SeparatorFrom(id, 0);
    if FilePath(id) == file {
      if i < |id| {
        assert id == file + "::" + id[i + 2..];
      } else {
        assert id == file;
      }
    }
    if LivesIn(id, file) {
      if id != file {
        var rest :| id == file + "::" + rest;
        assert id[|file|] == ':' && id[|file| + 1] == ':';
        FirstSeparator(id, 0, |file|);
      } else {
        FirstSeparator(id, 0, |file|);
      }
      assert id[..|file|] == file;
    }
  }

  lemma ThreeParts(id: string, at: nat, end: nat, head: string, name: string)
    requires at <= end <= |id| && id[..at] == head && id[at..end] == name
    ensures id == head + name + id[end..]
  {
  }

  lemma HeaderHas(id: string, file: string)
    requires LivesIn(id, file) && IsHeader(id)
    ensures id == file + "::module_header" || exists rest :: id == file + "::module_header::" + rest
  {
    FilePathIs(id, file);
    var kind := |file| + 2;
    var end := SeparatorFrom(id, kind);
    ThreeParts(id, kind, end, file + "::", "module_header");
    HeaderTail(id, file, id[end..]);
  }

  lemma HeaderTail(id: string, file: string, tail: string)
    requires id == (file + "::") + "module_header" + tail && (tail == "" || SeparatorAt(tail, 0))
    ensures id == file + "::module_header" || exists rest :: id == file + "::module_header::" + rest
  {
    if tail == "" {
      assert id == file + "::module_header";
    } else {
      assert tail == "::" + tail[2..];
      assert id == file + "::module_header::" + tail[2..];
    }
  }

  /** A header's id is `file::module_header`, with or without a further component. */
  lemma IsHeaderIs(id: string, file: string)
    requires LivesIn(id, file)
    ensures IsHeader(id) <==>
      id == file + "::module_header" || exists rest :: id == file + "::module_header::" + rest
  {
    if IsHeader(id) {
      HeaderHas(id, file);
    }
    if id == file + "::module_header" {
      HeaderEnds(id, file, "");
    }
    if rest :| id == file + "::module_header::" + rest {
      HeaderEnds(id, file, "::" + rest);
    }
  }

  lemma HeaderEnds(id: string, file: string, tail: string)
    requires LivesIn(id, file) && id == file + "::module_header" + tail
    requires tail == "" || (|tail| >= 2 && tail[..2] == "::")
    ensures IsHeader(id)
  {
    FilePathIs(id, file);
    var kind, end := |file| + 2, |file| + 15;
    assert id[kind..end] == "module_header";
    forall k | kind <= k < end ensures !SeparatorAt(id, k) {
      assert id[k] == "module_header"[k - kind];
    }
    if tail != "" {
      assert id[end] == tail[0] && id[end + 1] == tail[1];
    }
    FirstSeparator(id, kind, end);
    assert SeparatorAt(id, |file|);
  }
}
