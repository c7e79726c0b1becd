/**
 * Data-item paths. A live change event is matched on its whole path; the initial enumeration
 * after connecting matches "/" followed by the last path segment instead.
 */
module DataPaths {

  import opened Wrappers
  import Text

  const UPDATE_FORECAST_PATH: string := "/update-forecast"

  /** The segments of a path: the runs between slashes, empty runs skipped, as Uri.getPathSegments. */
  function Segments(path: string): seq<string>
    decreases |path|
  {
    if path == [] then []
    else
      var last := Text.AfterLast('/', path);
      if last == [] then Segments(path[..|path| - 1])
      else Segments(path[..|path| - |last|]) + [last]
  }

  /** Uri.getLastPathSegment: None (Java's null) when the path has no segment. */
  function LastPathSegment(path: string): Option<string> {
    var segs := Segments(path);
    if segs == [] then None else Some(segs[|segs| - 1])
  }

  /** The key the initial enumeration compares: Java's `"/" + lastSegment`, where null reads "null". */
  function InitialPathKey(path: string): string {
    match LastPathSegment(path)
    case Some(seg) => "/" + seg
    case None => "/null"
  }

  /** Every segment is a non-empty run of characters other than '/'. */
  lemma {:induction false} SegmentsAreWords(path: string)
    ensures forall i :: 0 <= i < |Segments(path)| ==> Segments(path)[i] != [] && '/' !in Segments(path)[i]
    decreases |path|
  {
    if path != [] {
      var last := Text.AfterLast('/', path);
      Text.AfterLastIsSuffix('/', path);
      if last == [] {
        SegmentsAreWords(path[..|path| - 1]);
      } else {
        SegmentsAreWords(path[..|path| - |last|]);
      }
    }
  }

  /** The key is a slash followed by one slash-free word: "null" when the path has no segment. */
  lemma InitialPathKeyIsOneSegment(path: string)
    ensures |InitialPathKey(path)| >= 2 && InitialPathKey(path)[0] == '/' && '/' !in InitialPathKey(path)[1..]
    ensures LastPathSegment(path).Some? ==> InitialPathKey(path) == "/" + LastPathSegment(path).value
    ensures LastPathSegment(path).None? ==> InitialPathKey(path) == "/null"
  {
    SegmentsAreWords(path);
    var key := InitialPathKey(path);
    assert key[1..] == if LastPathSegment(path).Some? then LastPathSegment(path).value else "null";
  }

  /** The test onDataChanged applies to a changed item. */
  predicate ChangedPathMatches(path: string) {
    path == UPDATE_FORECAST_PATH
  }

  /** The test the initial enumeration applies to a stored item. */
  predicate StoredPathMatches(path: string) {
    InitialPathKey(path) == UPDATE_FORECAST_PATH
  }

  /** A path ending in a non-empty slash-free word has that word as its last segment. */
  lemma {:induction false} LastSegmentOfJoin(prefix: string, word: string)
    requires word != [] && '/' !in word
    ensures LastPathSegment(prefix + "/" + word) == Some(word)
  {
    var path := prefix + "/" + word;
    Text.AfterLastOfJoin('/', prefix, word);
    assert path[..|path| - |word|] == prefix + "/";
  }

  /** The stored-item test accepts exactly the paths whose last segment is "update-forecast". */
  lemma StoredMatchIsLastSegment(path: string)
    ensures StoredPathMatches(path) <==> LastPathSegment(path) == Some(UPDATE_FORECAST_PATH[1..])
  {
  }

  /** The stored-item test is the looser one: every path a change event matches, it matches too. */
  lemma ChangedMatchImpliesStoredMatch(path: string)
    requires ChangedPathMatches(path)
    ensures StoredPathMatches(path)
  {
    assert path == [] + "/" + UPDATE_FORECAST_PATH[1..];
    LastSegmentOfJoin([], UPDATE_FORECAST_PATH[1..]);
  }

  /** A nested path such as "/x/update-forecast" matches on enumeration but not as a change event. */
  lemma NestedPathMatchesOnlyStored(prefix: string)
    requires prefix != []
    ensures StoredPathMatches(prefix + UPDATE_FORECAST_PATH)
    ensures !ChangedPathMatches(prefix + UPDATE_FORECAST_PATH)
  {
    assert prefix + UPDATE_FORECAST_PATH == prefix + "/" + UPDATE_FORECAST_PATH[1..];
    LastSegmentOfJoin(prefix, UPDATE_FORECAST_PATH[1..]);
  }

}
