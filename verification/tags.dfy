/**
 * The course editor's tag field: a comma-separated string parsed with
 * `split(',').map(tag => tag.trim()).filter(Boolean)`, and pre-filled from a
 * course with `tags.join(', ')`.
 */
module Tags {
  import opened Text

  /** `parts.map(p => p.trim())`. */
  function TrimAll(parts: seq<string>): (r: seq<string>)
    ensures |r| == |parts|
    ensures forall i :: 0 <= i < |r| ==> r[i] == Trim(parts[i])
    decreases |parts|
  {
    if |parts| == 0 then [] else [Trim(parts[0])] + TrimAll(parts[1..])
  }

  /** `parts.filter(Boolean)`: the empty strings go, the rest keep their order. */
  function DropEmpty(parts: seq<string>): (r: seq<string>)
    ensures forall t :: t in r ==> t != [] && t in parts
    ensures forall t :: t in parts && t != [] ==> t in r
    ensures (forall t :: t in parts ==> t != []) ==> r == parts
    decreases |parts|
  {
    if |parts| == 0 then []
    else if parts[0] == [] then
      assert parts[0] in parts;
      DropEmpty(parts[1..])
    else
      assert parts == [parts[0]] + parts[1..];
      assert forall t :: t in parts[1..] ==> t in parts;
      [parts[0]] + DropEmpty(parts[1..])
  }

  /** Trimming piece by piece distributes over concatenation. */
  lemma TrimAllAppend(a: seq<string>, b: seq<string>)
    ensures TrimAll(a + b) == TrimAll(a) + TrimAll(b)
  {
    var r := TrimAll(a + b);
    forall i | 0 <= i < |r|
      ensures r[i] == (TrimAll(a) + TrimAll(b))[i]
    {
      if i >= |a| {
        assert (a + b)[i] == b[i - |a|];
      }
    }
  }

  /** Dropping the empty strings keeps the rest in order and with their repeats: it distributes over concatenation. */
  lemma {:induction false} DropEmptyAppend(a: seq<string>, b: seq<string>)
    ensures DropEmpty(a + b) == DropEmpty(a) + DropEmpty(b)
    decreases |a|
  {
    if |a| == 0 {
      assert a + b == b;
    } else {
      assert (a + b)[0] == a[0] && (a + b)[1..] == a[1..] + b;
      DropEmptyAppend(a[1..], b);
    }
  }

  /** A piece cut out of a string that has no comma has no comma either. */
  lemma TrimKeepsCommaFree(p: string)
    requires ',' !in p
    ensures ',' !in Trim(p)
  {
    var r := Trim(p);
    var i := LeadingWhitespace(p);
    forall k | 0 <= k < |r|
      ensures r[k] != ','
    {
      assert r[k] == p[i + k];
      assert p[i + k] in p;
    }
  }

  /** A tag as the parser produces it: nonempty, trimmed and free of commas. */
  predicate IsCleanTag(t: string) {
    t != [] && IsTrimmed(t) && ',' !in t
  }

  /** The tag list typed into the form: every tag nonempty, trimmed and comma-free. */
  function ParseTags(s: string): (tags: seq<string>)
    ensures forall t :: t in tags ==> IsCleanTag(t)
    ensures s == [] ==> tags == []
  {
    var pieces := Split(s, ',');
    var trimmed := TrimAll(pieces);
    forall t | t in trimmed
      ensures ',' !in t
    {
      var k :| 0 <= k < |trimmed| && trimmed[k] == t;
      assert pieces[k] in pieces;
      TrimKeepsCommaFree(pieces[k]);
    }
    DropEmpty(trimmed)
  }

  /**
   * The tags of two comma-separated texts joined by a comma are the tags of
   * the first followed by the tags of the second: parsing keeps the typed
   * order and repeated tags.
   */
  lemma ParseTagsConcat(a: string, b: string)
    ensures ParseTags(a + [','] + b) == ParseTags(a) + ParseTags(b)
  {
    SplitAtSeparator(a, ',', b);
    TrimAllAppend(Split(a, ','), Split(b, ','));
    DropEmptyAppend(TrimAll(Split(a, ',')), TrimAll(Split(b, ',')));
  }

  /** A text without commas holds at most one tag: itself, trimmed, unless that is empty. */
  lemma ParseSingleTag(p: string)
    requires ',' !in p
    ensures ParseTags(p) == if Trim(p) == [] then [] else [Trim(p)]
  {
    SplitNoSeparator(p, ',');
    assert TrimAll([p]) == [Trim(p)];
  }

  /** Trimming and dropping the empty strings keeps exactly the nonempty trimmed pieces. */
  lemma TrimmedPieces(pieces: seq<string>)
    ensures forall t :: t in DropEmpty(TrimAll(pieces)) <==>
      t != [] && exists k :: 0 <= k < |pieces| && t == Trim(pieces[k])
  {
    var trimmed := TrimAll(pieces);
    forall t | t in trimmed
      ensures exists k :: 0 <= k < |pieces| && t == Trim(pieces[k])
    {
      var k :| 0 <= k < |trimmed| && trimmed[k] == t;
    }
    forall k | 0 <= k < |pieces|
      ensures Trim(pieces[k]) in trimmed
    {
      assert trimmed[k] == Trim(pieces[k]);
    }
  }

  /** The parsed tags are exactly the comma-separated pieces, trimmed, that are not empty. */
  lemma ParseTagsContents(s: string)
    ensures forall t :: t in ParseTags(s) <==>
      t != [] && exists k :: 0 <= k < |Split(s, ',')| && t == Trim(Split(s, ',')[k])
  {
    assert ParseTags(s) == DropEmpty(TrimAll(Split(s, ',')));
    TrimmedPieces(Split(s, ','));
  }

  /** `course.tags.join(', ')`, the form's pre-filled tag text when editing starts. */
  function JoinTags(tags: seq<string>): string {
    Join(tags, ", ")
  }

  /** The tags after the first, each with the space that ", " leaves in front of it after a comma split. */
  function SpacePrefixed(tags: seq<string>): (r: seq<string>)
    ensures |r| == |tags|
    ensures forall i :: 0 <= i < |r| ==> r[i] == " " + tags[i]
  {
    seq(|tags|, i requires 0 <= i < |tags| => " " + tags[i])
  }

  /** Joining with ", " is joining with "," after putting a space before every tag but the first. */
  lemma {:induction false} JoinWithSpace(tags: seq<string>)
    requires |tags| >= 1
    ensures Join(tags, ", ") == Join([tags[0]] + SpacePrefixed(tags[1..]), ",")
    decreases |tags|
  {
    if |tags| > 1 {
      var rest := tags[1..];
      JoinWithSpace(rest);
      var q := [rest[0]] + SpacePrefixed(rest[1..]);
      assert SpacePrefixed(rest) == [" " + rest[0]] + SpacePrefixed(rest[1..]);
      JoinPrefixFirst(" ", q, ",");
      assert [" " + q[0]] + q[1..] == SpacePrefixed(rest);
      var p := [tags[0]] + SpacePrefixed(rest);
      assert p[1..] == SpacePrefixed(rest);
    }
  }

  /** The comma-split pieces of `tags.join(', ')`: the first tag, then each later one behind a space. */
  function JoinedPieces(tags: seq<string>): (pieces: seq<string>)
    requires |tags| >= 1
    ensures |pieces| == |tags|
  {
    [tags[0]] + SpacePrefixed(tags[1..])
  }

  /** No piece of joined clean tags holds a comma. */
  lemma JoinedPiecesCommaFree(tags: seq<string>)
    requires |tags| >= 1
    requires forall t :: t in tags ==> IsCleanTag(t)
    ensures forall p :: p in JoinedPieces(tags) ==> ',' !in p
  {
    var pieces := JoinedPieces(tags);
    forall p | p in pieces
      ensures ',' !in p
    {
      var k :| 0 <= k < |pieces| && pieces[k] == p;
      assert tags[k] in tags;
      if k > 0 {
        assert p == " " + tags[k];
        assert p[0] == ' ' && p[1..] == tags[k];
      }
    }
  }

  /** Trimming the pieces of joined clean tags gives the tags back. */
  lemma TrimJoinedPieces(tags: seq<string>)
    requires |tags| >= 1
    requires forall t :: t in tags ==> IsCleanTag(t)
    ensures TrimAll(JoinedPieces(tags)) == tags
  {
    var trimmed := TrimAll(JoinedPieces(tags));
    forall k | 0 <= k < |tags|
      ensures trimmed[k] == tags[k]
    {
      assert tags[k] in tags;
      if k == 0 {
        TrimTrimmed(tags[0]);
      } else {
        TrimSpacePrefix(tags[k]);
      }
    }
  }

  /**
   * Editing a course and saving without touching the tag text gives back the
   * course's tags, provided each was nonempty, trimmed and comma-free.
   */
  lemma ParseJoinedTags(tags: seq<string>)
    requires forall t :: t in tags ==> IsCleanTag(t)
    ensures ParseTags(JoinTags(tags)) == tags
  {
    if |tags| == 0 {
      assert Split("", ',') == [""];
      assert TrimAll([""]) == [""];
    } else {
      var pieces := JoinedPieces(tags);
      JoinWithSpace(tags);
      JoinedPiecesCommaFree(tags);
      SplitJoin(pieces, ',');
      assert Split(JoinTags(tags), ',') == pieces;
      TrimJoinedPieces(tags);
    }
  }
}
