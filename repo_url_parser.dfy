// ParseRepoURL of internal/utils/parser.go after `url.Parse`: the parse's
// outcome (host and path, or its error) is the input.
module RepoUrlParser {
  import opened Common
  import opened DomainErrors

  /** The parts of a parsed URL the parser reads. */
  datatype ParsedURL = ParsedURL(host: string, path: string)

  const GitHubHost: string := "github.com"
  const UnsupportedHost: string := "not supported version control repository"
  const BadFormat: string := "invalid GitHub repository URL format"

  /** `strings.Split(s, "/")`: the text between slashes; never empty. */
  function Split(s: string): (parts: seq<string>)
    ensures |parts| >= 1
    ensures forall i :: 0 <= i < |parts| ==> '/' !in parts[i]
    decreases |s|
  {
    if s == [] then [""]
    else if s[0] == '/' then [""] + Split(s[1..])
    else
      var rest := Split(s[1..]);
      [[s[0]] + rest[0]] + rest[1..]
  }

  /** `strings.Join(parts, "/")`. */
  function JoinSlash(parts: seq<string>): string
    requires |parts| >= 1
  {
    if |parts| == 1 then parts[0] else parts[0] + "/" + JoinSlash(parts[1..])
  }

  /** Splitting and joining again gives back the text. */
  lemma {:induction false} SplitJoin(s: string)
    ensures JoinSlash(Split(s)) == s
    decreases |s|
  {
    if s == [] {
    } else if s[0] == '/' {
      SplitJoin(s[1..]);
      assert s == "/" + s[1..];
    } else {
      SplitJoin(s[1..]);
      var rest := Split(s[1..]);
      if |rest| == 1 {
        assert s == [s[0]] + s[1..];
      } else {
        assert rest == [rest[0]] + rest[1..];
        assert s == [s[0]] + (rest[0] + "/" + JoinSlash(rest[1..]));
      }
    }
  }

  /** A segment without a slash followed by a slash splits off whole. */
  lemma {:induction false} SplitSegment(first: string, rest: string)
    requires '/' !in first
    ensures Split(first + "/" + rest) == [first] + Split(rest)
    decreases |first|
  {
    var s := first + "/" + rest;
    if first == [] {
      assert s[1..] == rest;
    } else {
      assert s[1..] == first[1..] + "/" + rest;
      assert '/' !in first[1..] by {
        forall i | 0 <= i < |first[1..]| ensures first[1..][i] != '/' {
          assert first[1..][i] == first[i + 1];
        }
      }
      SplitSegment(first[1..], rest);
      assert [first[0]] + first[1..] == first;
    }
  }

  /** Text without a slash is one segment. */
  lemma {:induction false} SplitNoSlash(s: string)
    requires '/' !in s
    ensures Split(s) == [s]
    decreases |s|
  {
    if s != [] {
      assert '/' !in s[1..] by {
        forall i | 0 <= i < |s[1..]| ensures s[1..][i] != '/' {
          assert s[1..][i] == s[i + 1];
        }
      }
      SplitNoSlash(s[1..]);
      assert [s[0]] + s[1..] == s;
    }
  }

  /** `strings.TrimPrefix(s, prefix)`: one leading occurrence removed. */
  function TrimPrefix(s: string, prefix: string): (r: string)
    ensures StartsWith(s, prefix) ==> prefix + r == s
    ensures !StartsWith(s, prefix) ==> r == s
  {
    if StartsWith(s, prefix) then s[|prefix|..] else s
  }

  /** `strings.TrimSuffix(s, suffix)`: one trailing occurrence removed. */
  function TrimSuffix(s: string, suffix: string): (r: string)
    ensures |suffix| <= |s| && s[|s| - |suffix|..] == suffix ==> r + suffix == s
    ensures !(|suffix| <= |s| && s[|s| - |suffix|..] == suffix) ==> r == s
  {
    if |suffix| <= |s| && s[|s| - |suffix|..] == suffix then s[..|s| - |suffix|] else s
  }

  /** ParseRepoURL: only github.com; at least two segments after one leading
      slash is trimmed; owner is the first segment, name the second with one
      ".git" suffix removed; later segments are ignored. */
  function ParseRepoURL(parsed: Result<ParsedURL, Error>): (r: Result<(string, string), Error>)
    ensures parsed.Failure? ==> r == Failure(parsed.error)
    ensures parsed.Success? && parsed.value.host != GitHubHost ==> r == Failure(Plain(UnsupportedHost))
    ensures r.Success? ==> parsed.Success? && parsed.value.host == GitHubHost
    ensures r.Success? ==> '/' !in r.value.0 && '/' !in r.value.1
  {
    match parsed
    case Failure(e) => Failure(e)
    case Success(u) =>
      if u.host != GitHubHost then Failure(Plain(UnsupportedHost))
      else
        var pathParts := Split(TrimPrefix(u.path, "/"));
        if |pathParts| < 2 then Failure(Plain(BadFormat))
        else
          assert forall i :: 0 <= i < |pathParts[1]| - 4 ==> TrimSuffix(pathParts[1], ".git")[i] == pathParts[1][i];
          Success((pathParts[0], TrimSuffix(pathParts[1], ".git")))
  }

  /** The URL built from an owner and a name parses back to them, with one
      ".git" suffix dropped, whatever further segments follow. */
  lemma ParsesOwnerAndName(owner: string, name: string, tail: string)
    requires '/' !in owner && '/' !in name
    ensures ParseRepoURL(Success(ParsedURL(GitHubHost, "/" + owner + "/" + name)))
         == Success((owner, TrimSuffix(name, ".git")))
    ensures ParseRepoURL(Success(ParsedURL(GitHubHost, "/" + owner + "/" + name + "/" + tail)))
         == Success((owner, TrimSuffix(name, ".git")))
  {
    var p1 := "/" + owner + "/" + name;
    assert StartsWith(p1, "/") && TrimPrefix(p1, "/") == owner + "/" + name;
    SplitSegment(owner, name);
    SplitNoSlash(name);
    var p2 := "/" + owner + "/" + name + "/" + tail;
    assert StartsWith(p2, "/") && TrimPrefix(p2, "/") == owner + "/" + (name + "/" + tail);
    SplitSegment(owner, name + "/" + tail);
    SplitSegment(name, tail);
  }

  /** Only the segment count is checked: "/owner/" gives an empty name. */
  lemma EmptyNameAccepted(owner: string)
    requires '/' !in owner
    ensures ParseRepoURL(Success(ParsedURL(GitHubHost, "/" + owner + "/"))) == Success((owner, ""))
  {
    var p := "/" + owner + "/";
    assert StartsWith(p, "/") && TrimPrefix(p, "/") == owner + "/" + "";
    SplitSegment(owner, "");
  }

  /** A path with a single segment is rejected. */
  lemma SingleSegmentRejected(segment: string)
    requires '/' !in segment
    ensures ParseRepoURL(Success(ParsedURL(GitHubHost, "/" + segment))) == Failure(Plain(BadFormat))
  {
    var p := "/" + segment;
    assert StartsWith(p, "/") && TrimPrefix(p, "/") == segment;
    SplitNoSlash(segment);
  }
}
