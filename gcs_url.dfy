/** The lock identifier `gs://<bucket>/<object>` and its parser. */
module GcsUrl {
  import opened Wrappers

  const Scheme: string := "gs://"

  datatype Location = Location(bucket: string, name: string)

  /** The two ValueErrors the parser raises. */
  datatype UrlError =
    | MissingScheme    // "URL must start with 'gs://'"
    | MissingObject    // "URL must be in the format 'gs://<bucket>/<object>'"

  /** The URL that names a location; the parser's inverse. */
  function FormatGcsUrl(loc: Location): (url: string) {
    Scheme + loc.bucket + "/" + loc.name
  }

  /** Index of the first occurrence of `c` in `s`. */
  function Find(s: string, c: char): (r: Option<nat>)
    ensures r.Some? ==> r.value < |s| && s[r.value] == c && c !in s[..r.value]
    ensures r.None? ==> c !in s
  {
    if s == [] then None
    else if s[0] == c then Some(0)
    else
      match Find(s[1..], c)
      case None => None
      case Some(i) =>
        assert s[..i + 1] == [s[0]] + s[1..][..i];
        Some(i + 1)
  }

  /** Python's `s.split(sep, 1)`: the whole string, or the parts before and after the first `sep`. */
  function SplitOnce(s: string, sep: char): (parts: seq<string>)
    ensures |parts| == 1 || |parts| == 2
    ensures |parts| == 1 <==> sep !in s
    ensures |parts| == 1 ==> parts[0] == s
    ensures |parts| == 2 ==> parts[0] + [sep] + parts[1] == s && sep !in parts[0]
  {
    match Find(s, sep)
    case None => [s]
    case Some(i) =>
      assert s[..i] + [sep] + s[i + 1..] == s;
      [s[..i], s[i + 1..]]
  }

  /** `_parse_gcs_url`: the prefix test, one split at the first '/', the pair of parts. */
  function ParseGcsUrl(url: string): (r: Result<Location, UrlError>)
    ensures r.Ok? ==> FormatGcsUrl(r.value) == url && '/' !in r.value.bucket
    ensures r == Err(MissingScheme) <==> !(Scheme <= url)
    ensures r == Err(MissingObject) <==> Scheme <= url && '/' !in url[|Scheme|..]
  {
    if !(Scheme <= url) then Err(MissingScheme)
    else
      var rest := url[|Scheme|..];
      var parts := SplitOnce(rest, '/');
      if |parts| != 2 then Err(MissingObject)
      else
        assert Scheme + rest == url;
        Ok(Location(parts[0], parts[1]))
  }

  /** Find returns the first occurrence, not merely some occurrence. */
  lemma {:induction false} FindFirst(s: string, c: char, n: nat)
    requires n < |s| && s[n] == c && c !in s[..n]
    ensures Find(s, c) == Some(n)
  {
    if n > 0 {
      assert s[0] == s[..n][0];
      assert s[1..][..n - 1] == s[1..n];
      assert forall k :: 0 <= k < n - 1 ==> s[1..n][k] == s[..n][k + 1];
      FindFirst(s[1..], c, n - 1);
    }
  }

  /** Every location whose bucket has no '/' survives formatting and parsing; the object part may hold '/'. */
  lemma {:induction false} ParseFormatRoundTrip(loc: Location)
    requires '/' !in loc.bucket
    ensures ParseGcsUrl(FormatGcsUrl(loc)) == Ok(loc)
  {
    var url := FormatGcsUrl(loc);
    assert Scheme <= url;
    var rest := url[|Scheme|..];
    assert rest == loc.bucket + "/" + loc.name;
    var n := |loc.bucket|;
    assert rest[..n] == loc.bucket;
    FindFirst(rest, '/', n);
    assert rest[..n] == loc.bucket;
    assert rest[n + 1..] == loc.name;
  }
}
