/** Matching an entity tag against an If-None-Match header in one pass. */
module ETag {
  import opened Basics

  predicate IsDelimiter(c: char) {
    c == ' ' || c == ',' || c == '\"'
  }

  predicate Plain(s: string) {
    forall i :: 0 <= i < |s| ==> !IsDelimiter(s[i])
  }

  // ----- split, then compare -----

  /** The pieces that a delimiter has closed, and the piece in progress. */
  datatype Pieces = Pieces(closed: seq<string>, last: string)

  function Split(s: string): (p: Pieces)
    ensures Plain(p.last)
  {
    if s == [] then Pieces([], []) else
      var p, c := Split(s[..|s| - 1]), s[|s| - 1];
      if IsDelimiter(c) then Pieces(p.closed + [p.last], []) else Pieces(p.closed, p.last + [c])
  }

  /** The tag as compared: a NUL at its end does not count. */
  function Tag(etag: string): string
    requires etag != []
  {
    if etag[|etag| - 1] == '\0' then etag[..|etag| - 1] else etag
  }

  predicate Matches(value: string, tag: string) {
    tag in Split(value).closed || tag == Split(value).last
  }

  // ----- the one-pass automaton -----

  /** `index` characters of the tag agree with the piece in progress, or it is ignored. */
  ghost predicate Follows(tag: string, last: string, index: nat, ignore: bool) {
    && index <= |tag|
    && (!ignore ==> last == tag[..index])
    && (ignore ==> !(last <= tag))
  }

  lemma SplitStep(value: string, i: nat)
    requires i < |value| && !IsDelimiter(value[i])
    ensures Split(value[..i + 1]) == Pieces(Split(value[..i]).closed, Split(value[..i]).last + [value[i]])
  {
    assert value[..i + 1][..i] == value[..i];
  }

  lemma SplitAtDelimiter(value: string, i: nat)
    requires i < |value| && IsDelimiter(value[i])
    ensures Split(value[..i + 1]) == Pieces(Split(value[..i]).closed + [Split(value[..i]).last], [])
  {
    assert value[..i + 1][..i] == value[..i];
  }

  /** The piece in progress is the tag exactly when all of the tag has been met. */
  lemma FollowsIff(tag: string, last: string, index: nat, ignore: bool)
    requires Follows(tag, last, index, ignore)
    ensures last == tag <==> index == |tag| && !ignore
  {
    if ignore {
      assert last != tag;
    } else if last == tag {
      assert |tag[..index]| == index;
    }
  }

  /** One more character of the piece in progress. */
  lemma FollowsStep(tag: string, last: string, index: nat, ignore: bool, ch: char)
    requires Follows(tag, last, index, ignore)
    ensures if ignore || index == |tag| then Follows(tag, last + [ch], index, true)
            else Follows(tag, last + [ch], index + 1, ch != tag[index])
  {
    assert last <= last + [ch];
    if !ignore && index < |tag| && last + [ch] <= tag {
      assert (last + [ch])[index] == tag[index];
    }
  }

  /** One turn for a character that is no delimiter. */
  method NextPlain(etag: string, size: nat, index: nat, ignore: bool, ch: char, ghost last: string)
    returns (index': nat, ignore': bool)
    requires size <= |etag| && Follows(etag[..size], last, index, ignore)
    ensures Follows(etag[..size], last + [ch], index', ignore')
  {
    FollowsStep(etag[..size], last, index, ignore, ch);
    index', ignore' := index, ignore;
    if ignore {
      return;
    }
    if index == size {
      ignore' := true;
      return;
    }
    if ch != etag[index] {
      ignore' := true;
    }
    index' := index + 1;
  }

  /** `match_etag`: None stands for a request without the header. */
  method MatchEtag(header: Option<string>, etag: string) returns (matched: bool)
    requires etag != []
    ensures matched <==> header.Some? && Matches(header.value, Tag(etag))
  {
    var size := |etag|;
    if etag[size - 1] == '\0' {
      size := size - 1;
    }
    ghost var tag := Tag(etag);
    assert tag == etag[..size];
    if header == None {
      return false;
    }
    var value := header.value;
    var ignore, index := false, 0;
    ghost var pieces := Pieces([], []);
    for i := 0 to |value|
      invariant pieces == Split(value[..i])
      invariant 0 <= index && Follows(tag, pieces.last, index, ignore) && tag !in pieces.closed
    {
      var ch := value[i];
      FollowsIff(tag, pieces.last, index, ignore);
      if IsDelimiter(ch) {
        SplitAtDelimiter(value, i);
        pieces := Pieces(pieces.closed + [pieces.last], []);
        if index == size && !ignore {
          ClosedStay(value, i + 1, tag);
          return true;
        }
        ignore := false;
        index := 0;
        continue;
      }
      SplitStep(value, i);
      index, ignore := NextPlain(etag, size, index, ignore, ch, pieces.last);
      pieces := Pieces(pieces.closed, pieces.last + [ch]);
    }
    assert value[..|value|] == value;
    FollowsIff(tag, pieces.last, index, ignore);
    matched := index == size && !ignore;
  }

  lemma {:induction false} ClosedStay(value: string, i: nat, tag: string)
    requires i <= |value| && tag in Split(value[..i]).closed
    ensures tag in Split(value).closed
    decreases |value| - i
  {
    if i == |value| {
      assert value[..i] == value;
    } else {
      assert value[..i + 1][..i] == value[..i];
      ClosedStay(value, i + 1, tag);
    }
  }

  // ----- pieces are the maximal runs between delimiters -----

  /** The characters from `i` to `j` are a maximal run without delimiters. */
  predicate IsRun(s: string, i: nat, j: nat) {
    && i <= j <= |s|
    && (forall k :: i <= k < j ==> !IsDelimiter(s[k]))
    && (i == 0 || IsDelimiter(s[i - 1]))
    && (j == |s| || IsDelimiter(s[j]))
  }

  function LastStart(s: string): (i: nat)
    ensures i <= |s| && s[i..] == Split(s).last && IsRun(s, i, |s|)
    ensures forall k :: 0 <= k < |s| && IsDelimiter(s[k]) ==> k < i
  {
    if s == [] then 0
    else if IsDelimiter(s[|s| - 1]) then |s|
    else LastStart(s[..|s| - 1])
  }

  lemma LastRun(s: string, i: nat)
    requires IsRun(s, i, |s|)
    ensures i == LastStart(s)
  {
    var k := LastStart(s);
  }

  lemma EarlierRun(s: string, i: nat, j: nat)
    requires s != [] && j < |s|
    ensures IsRun(s, i, j) <==> IsRun(s[..|s| - 1], i, j) && (j == |s| - 1 ==> IsDelimiter(s[j]))
  {
  }

  ghost predicate EndedRun(s: string, p: string) {
    exists i, j :: 0 <= i <= j < |s| && IsRun(s, i, j) && s[i..j] == p
  }

  lemma {:induction false} ClosedIsRun(s: string, p: string)
    requires p in Split(s).closed
    ensures EndedRun(s, p)
  {
    var w := s[..|s| - 1];
    var i, j;
    if p in Split(w).closed {
      ClosedIsRun(w, p);
      i, j :| 0 <= i <= j < |w| && IsRun(w, i, j) && w[i..j] == p;
    } else {
      i, j := LastStart(w), |w|;
    }
    EarlierRun(s, i, j);
    assert s[i..j] == w[i..j];
  }

  lemma {:induction false} RunIsClosed(s: string, i: nat, j: nat)
    requires i <= j < |s| && IsRun(s, i, j)
    ensures s[i..j] in Split(s).closed
  {
    var w := s[..|s| - 1];
    EarlierRun(s, i, j);
    assert s[i..j] == w[i..j];
    if j < |w| {
      RunIsClosed(w, i, j);
    } else {
      LastRun(w, i);
      assert w[i..] == w[i..j];
    }
  }

  /** The closed pieces are the runs that end at a delimiter. */
  lemma ClosedIffRun(s: string, p: string)
    ensures p in Split(s).closed <==> EndedRun(s, p)
  {
    if p in Split(s).closed {
      ClosedIsRun(s, p);
    }
    if EndedRun(s, p) {
      var i, j :| 0 <= i <= j < |s| && IsRun(s, i, j) && s[i..j] == p;
      RunIsClosed(s, i, j);
    }
  }

  /** The characters from `i` to `j` stand between spaces, commas, quotes and the ends. */
  predicate IsToken(s: string, i: nat, j: nat) {
    && i <= j <= |s|
    && (forall k :: i <= k < j ==> s[k] != ' ' && s[k] != ',' && s[k] != '\"')
    && (i == 0 || s[i - 1] == ' ' || s[i - 1] == ',' || s[i - 1] == '\"')
    && (j == |s| || s[j] == ' ' || s[j] == ',' || s[j] == '\"')
  }

  ghost predicate HasToken(value: string, tag: string) {
    exists i, j :: 0 <= i <= j <= |value| && IsToken(value, i, j) && value[i..j] == tag
  }

  /** A header matches a tag exactly when one of its maximal runs of other characters than
      space, comma and quote is the tag. */
  lemma MatchesIffRun(value: string, tag: string)
    ensures Matches(value, tag) <==> HasToken(value, tag)
  {
    ClosedIffRun(value, tag);
    assert forall i, j :: IsToken(value, i, j) <==> IsRun(value, i, j);
    if Matches(value, tag) {
      if tag in Split(value).closed {
        var i, j :| 0 <= i <= j < |value| && IsRun(value, i, j) && value[i..j] == tag;
        assert IsToken(value, i, j);
      } else {
        var i := LastStart(value);
        assert value[i..|value|] == value[i..] && IsToken(value, i, |value|);
      }
    }
    if HasToken(value, tag) {
      var i, j :| 0 <= i <= j <= |value| && IsToken(value, i, j) && value[i..j] == tag;
      if j == |value| {
        LastRun(value, i);
      }
    }
  }

  /** A NUL at the end of a tag does not count. */
  lemma TagWithoutNul(tag: string)
    ensures Tag(tag + ['\0']) == tag
    ensures tag != [] && tag[|tag| - 1] != '\0' ==> Tag(tag) == tag
  {
  }

  /** A tag that contains a delimiter matches nothing. */
  lemma DelimitedNeverMatches(value: string, tag: string)
    requires exists k :: 0 <= k < |tag| && (tag[k] == ' ' || tag[k] == ',' || tag[k] == '\"')
    ensures !Matches(value, tag)
  {
    MatchesIffRun(value, tag);
  }
}
