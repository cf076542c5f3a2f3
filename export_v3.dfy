/**
 * The export step of Var3.py's `save_data_to_json`: nothing is saved
 * without tracked data or without a selected video; otherwise the data
 * goes to `<video name>_<timestamp>.json`, where the video name is the last
 * path segment (after the last `/`, then after the last `\`) with its
 * extension (from the last `.`) removed.
 */
module Export {
  import opened Wrappers
  import opened Aggregation

  /** The position of the last `c` in `s`. */
  function LastIndex(s: string, c: char): (r: Option<nat>)
    ensures r.Some? ==> r.value < |s| && s[r.value] == c
    ensures r.Some? ==> forall j :: r.value < j < |s| ==> s[j] != c
    ensures r.None? <==> c !in s
  {
    if s == [] then None
    else if s[|s| - 1] == c then Some(|s| - 1)
    else
      assert forall x :: x in s ==> x in s[..|s| - 1] || x == s[|s| - 1];
      LastIndex(s[..|s| - 1], c)
  }

  /**
   * `s.split(c)[-1]`: the longest suffix of `s` without `c`, which is all of
   * `s` when it holds no `c` and otherwise starts just after the last `c`.
   */
  function AfterLast(s: string, c: char): (r: string)
    ensures c !in r
    ensures |r| <= |s| && s[|s| - |r|..] == r
    ensures |r| < |s| ==> s[|s| - |r| - 1] == c
  {
    match LastIndex(s, c)
    case None => s
    case Some(i) => s[i + 1..]
  }

  /**
   * `s.rsplit(c, 1)[0]`: all of `s` when it holds no `c`, and otherwise the
   * text before the last `c`, which is followed only by `c`-free text.
   */
  function BeforeLast(s: string, c: char): (r: string)
    ensures c !in s ==> r == s
    ensures c in s ==> |r| < |s| && s[..|r|] == r && s[|r|] == c && c !in s[|r| + 1..]
  {
    match LastIndex(s, c)
    case None => s
    case Some(i) => s[..i]
  }

  /** The video name: last segment after `/` and `\`, extension stripped. */
  function VideoName(path: string): (name: string)
    ensures '/' !in name && '\\' !in name
  {
    var segment := AfterLast(AfterLast(path, '/'), '\\');
    var name := BeforeLast(segment, '.');
    assert forall x :: x in name ==> x in segment;
    assert '/' !in segment by {
      var s1 := AfterLast(path, '/');
      assert forall x :: x in segment ==> x in s1;
    }
    name
  }

  /** `f"{video_name}_{timestamp}.json"`. */
  function ExportFilename(path: string, timestamp: string): (f: string)
    ensures |f| == |VideoName(path)| + |timestamp| + 6
    ensures f[..|VideoName(path)|] == VideoName(path) && f[|VideoName(path)|] == '_'
    ensures f[|VideoName(path)| + 1..|f| - 5] == timestamp
    ensures f[|f| - 5..] == ".json"
  {
    VideoName(path) + "_" + timestamp + ".json"
  }

  /** With a timestamp free of separators the file name is in the working directory. */
  lemma FilenameHasNoSeparator(path: string, timestamp: string)
    requires '/' !in timestamp && '\\' !in timestamp
    ensures '/' !in ExportFilename(path, timestamp) && '\\' !in ExportFilename(path, timestamp)
  {
    var n := VideoName(path);
    NotInJoin('/', n, timestamp);
    NotInJoin('\\', n, timestamp);
  }

  lemma NotInJoin(c: char, n: string, timestamp: string)
    requires c != '_' && c != '.' && c != 'j' && c != 's' && c != 'o' && c != 'n'
    requires c !in n && c !in timestamp
    ensures c !in n + "_" + timestamp + ".json"
  {
  }

  /** After the text of a segment separated by `c` (or nothing), `AfterLast` finds that segment. */
  lemma AfterLastOfJoin(p: string, q: string, c: char)
    requires p == [] || p[|p| - 1] == c
    requires c !in q
    ensures AfterLast(p + q, c) == q
  {
    var s := p + q;
    var r := AfterLast(s, c);
    assert s[|p|..] == q;
    forall k | |s| - |r| <= k < |s|
      ensures s[k] != c
    {
      assert s[k] == r[k - (|s| - |r|)];
    }
    forall k | |p| <= k < |s|
      ensures s[k] != c
    {
      assert s[k] == q[k - |p|];
    }
    assert |r| == |q|;
  }

  lemma BeforeLastOfJoin(name: string, ext: string, c: char)
    requires c !in ext
    ensures BeforeLast(name + [c] + ext, c) == name
  {
    var s := name + [c] + ext;
    assert s[|name|] == c;
    var r := BeforeLast(s, c);
    forall k | |name| < k < |s|
      ensures s[k] != c
    {
      assert s[k] == ext[k - |name| - 1];
    }
    forall k | |r| < k < |s|
      ensures s[k] != c
    {
      assert s[k] == s[|r| + 1..][k - |r| - 1];
    }
    assert |r| == |name|;
  }

  /**
   * For a path `dir/name.ext`, where `dir` is empty or ends in `/`, neither
   * `name` nor `ext` holds a separator and `ext` holds no dot, the video name
   * is `name` (which itself may hold dots).
   */
  lemma VideoNameOfPath(dir: string, name: string, ext: string)
    requires dir == [] || dir[|dir| - 1] == '/'
    requires '/' !in name && '\\' !in name && '/' !in ext && '\\' !in ext && '.' !in ext
    ensures VideoName(dir + name + "." + ext) == name
  {
    var segment := name + "." + ext;
    assert dir + name + "." + ext == dir + segment;
    assert '/' !in segment && '\\' !in segment;
    AfterLastOfJoin(dir, segment, '/');
    AfterLastOfJoin([], segment, '\\');
    assert [] + segment == segment;
    assert segment == name + ['.'] + ext;
    BeforeLastOfJoin(name, ext, '.');
  }

  /** Without an extension the last segment is the video name. */
  lemma VideoNameWithoutExtension(dir: string, name: string)
    requires dir == [] || dir[|dir| - 1] == '/'
    requires '/' !in name && '\\' !in name && '.' !in name
    ensures VideoName(dir + name) == name
  {
    AfterLastOfJoin(dir, name, '/');
    AfterLastOfJoin([], name, '\\');
    assert [] + name == name;
  }

  datatype SaveError = NoData | NoVideoSelected

  /** What `json.dump` is asked to write, and where. */
  datatype SaveRequest = SaveRequest(filename: string, data: map<nat, seq<LogRecord>>)

  /**
   * The decision of `save_data_to_json`: the warnings come first (no data,
   * then no file), otherwise the whole log goes to the export file.
   */
  function SaveDataToJson(log: map<nat, seq<LogRecord>>, path: string, timestamp: string): (r: Result<SaveRequest, SaveError>)
    ensures r.Failure? <==> |log| == 0 || path == []
    ensures |log| == 0 ==> r.error == NoData
    ensures |log| != 0 && path == [] ==> r.error == NoVideoSelected
    ensures r.Success? ==> r.value == SaveRequest(ExportFilename(path, timestamp), log)
  {
    if |log| == 0 then Failure(NoData)
    else if path == [] then Failure(NoVideoSelected)
    else Success(SaveRequest(ExportFilename(path, timestamp), log))
  }
}
