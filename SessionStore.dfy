/** services/session_service.py: named, timestamped snapshots of a transcript,
    one JSON file per save in a sessions directory. The directory is a map from
    file name to the snapshot the file holds; the clock reading that names a
    snapshot is passed in. */
module SessionStore {
  import opened Text
  import opened Results
  import opened Models

  /** The content of one snapshot file: `{"name", "timestamp", "messages"}`. */
  datatype Snapshot = Snapshot(name: string, timestamp: string, messages: seq<Message>)

  /** One entry of `list_sessions`. */
  datatype SessionInfo = SessionInfo(filename: string, name: string, timestamp: string, messageCount: nat)

  /** `FileNotFoundError` raised by `load_session`. */
  datatype StoreError = NotFound

  const Extension := ".json"

  /** `f.endswith(".json")`. */
  predicate IsJson(f: string) {
    |f| >= |Extension| && f[|f| - |Extension|..] == Extension
  }

  /** The file name `save_session` writes: `<name>_<timestamp>.json`. It
      starts with the session name and is always listed. */
  function SessionFilename(sessionName: string, timestamp: string): (f: string)
    ensures IsJson(f)
    ensures |f| == |sessionName| + |timestamp| + 6 && f[..|sessionName|] == sessionName
  {
    sessionName + "_" + timestamp + Extension
  }

  /** The listing entry for file `f` holding `snap`. */
  function InfoOf(f: string, snap: Snapshot): (e: SessionInfo)
    ensures e.filename == f && e.messageCount == |snap.messages|
  {
    SessionInfo(f, snap.name, snap.timestamp, |snap.messages|)
  }

  /** The snapshot files `list_sessions` reports. */
  ghost function JsonNames(files: map<string, Snapshot>): set<string> {
    set f | f in files && IsJson(f)
  }

  /** Newest first: no entry is newer than the one before it. */
  predicate SortedByTimestampDesc(s: seq<SessionInfo>) {
    forall i :: 0 < i < |s| ==> StrLe(s[i].timestamp, s[i - 1].timestamp)
  }

  /** In a list sorted newest first, every entry is at least as new as every
      later one. */
  lemma {:induction false} SortedNewestFirst(s: seq<SessionInfo>, i: nat, j: nat)
    requires SortedByTimestampDesc(s) && i <= j < |s|
    ensures StrLe(s[j].timestamp, s[i].timestamp)
    decreases j - i
  {
    if i == j {
      StrLeReflexive(s[i].timestamp);
    } else {
      SortedNewestFirst(s, i + 1, j);
      StrLeTransitive(s[j].timestamp, s[i + 1].timestamp, s[i].timestamp);
    }
  }

  /** Place `x` after every entry at least as new as it; the list stays
      sorted and gains exactly `x`. */
  function InsertDesc(x: SessionInfo, s: seq<SessionInfo>): (r: seq<SessionInfo>)
    requires SortedByTimestampDesc(s)
    ensures SortedByTimestampDesc(r)
    ensures r != [] && (r[0] == x || (s != [] && r[0] == s[0]))
  {
    if s == [] then [x]
    else if StrLe(x.timestamp, s[0].timestamp) then
      assert s == [s[0]] + s[1..];
      [s[0]] + InsertDesc(x, s[1..])
    else
      StrLeTotal(x.timestamp, s[0].timestamp);
      [x] + s
  }

  /** The insertion loses and duplicates nothing: the result holds exactly
      the entries of `s` and `x`. */
  lemma {:induction false} InsertDescPermutes(x: SessionInfo, s: seq<SessionInfo>)
    requires SortedByTimestampDesc(s)
    ensures multiset(InsertDesc(x, s)) == multiset(s) + multiset{x}
    decreases |s|
  {
    if s != [] && StrLe(x.timestamp, s[0].timestamp) {
      assert s == [s[0]] + s[1..];
      InsertDescPermutes(x, s[1..]);
    }
  }

  /** `sessions.sort(key=timestamp, reverse=True)`: the same entries, newest first. */
  method SortByTimestampDesc(s: seq<SessionInfo>) returns (r: seq<SessionInfo>)
    ensures SortedByTimestampDesc(r)
    ensures multiset(r) == multiset(s)
  {
    r := [];
    for i := 0 to |s|
      invariant SortedByTimestampDesc(r)
      invariant multiset(r) == multiset(s[..i])
    {
      InsertDescPermutes(s[i], r);
      r := InsertDesc(s[i], r);
      assert s[..i + 1] == s[..i] + [s[i]];
    }
    assert s[..|s|] == s;
  }

  /** Two lists that are permutations of each other have the same length and
      the same members. */
  lemma SameEntries(s: seq<SessionInfo>, r: seq<SessionInfo>)
    requires multiset(r) == multiset(s)
    ensures |r| == |s|
    ensures forall x :: x in r <==> x in s
  {
    assert |r| == |multiset(r)|;
    forall x ensures x in r <==> x in s {
      assert x in r <==> x in multiset(r);
      assert x in s <==> x in multiset(s);
    }
  }

  /** The sessions directory. */
  class SessionDirectory {
    /** Whether the directory exists (`os.path.exists(sessions_dir)`). */
    var dirExists: bool
    /** File name to the snapshot stored in that file. */
    var files: map<string, Snapshot>

    /** A directory that does not exist holds no file. */
    ghost predicate Valid()
      reads this
    {
      !dirExists ==> files == map[]
    }

    constructor (present: bool, initial: map<string, Snapshot>)
      requires present || initial == map[]
      ensures Valid() && dirExists == present && files == initial
    {
      dirExists := present;
      files := initial;
    }

    /** `save_session`: create the directory if needed, write the snapshot
        under `<name>_<timestamp>.json` (replacing a file of that name) and
        return the file name. No other file changes. */
    method SaveSession(history: seq<Message>, sessionName: string, timestamp: string)
      returns (filename: string)
      requires Valid()
      modifies this
      ensures Valid() && dirExists
      ensures filename == SessionFilename(sessionName, timestamp)
      ensures files == old(files)[filename := Snapshot(sessionName, timestamp, history)]
    {
      dirExists := true;
      filename := sessionName + "_" + timestamp + Extension;
      files := files[filename := Snapshot(sessionName, timestamp, history)];
    }

    /** The loop of `list_sessions`: one entry per `.json` file, in whatever
        order the directory yields its names. */
    method CollectSessions() returns (found: seq<SessionInfo>)
      ensures |found| == |JsonNames(files)|
      ensures forall e :: e in found ==> e.filename in JsonNames(files) && e == InfoOf(e.filename, files[e.filename])
      ensures forall f :: f in JsonNames(files) ==> InfoOf(f, files[f]) in found
    {
      found := [];
      var remaining := files.Keys;
      ghost var seen: set<string> := {};
      ghost var listed: set<string> := {};
      while remaining != {}
        invariant remaining + seen == files.Keys && remaining !! seen
        invariant listed <= seen
        invariant forall f :: f in listed <==> f in seen && IsJson(f)
        invariant |found| == |listed|
        invariant forall e :: e in found ==> e.filename in listed && e == InfoOf(e.filename, files[e.filename])
        invariant forall f :: f in listed ==> InfoOf(f, files[f]) in found
        decreases |remaining|
      {
        var filename :| filename in remaining;
        assert filename !in seen && filename !in listed;
        if IsJson(filename) {
          assert |listed + {filename}| == |listed| + 1;
          found := found + [InfoOf(filename, files[filename])];
          listed := listed + {filename};
        }
        assert (remaining - {filename}) + (seen + {filename}) == remaining + seen;
        remaining := remaining - {filename};
        seen := seen + {filename};
      }
      assert listed == JsonNames(files);
    }

    /** `list_sessions`: nothing when the directory is missing; otherwise one
        entry per `.json` file, carrying its name, timestamp and message count,
        newest first. */
    method ListSessions() returns (sessions: seq<SessionInfo>)
      requires Valid()
      ensures !dirExists ==> sessions == []
      ensures |sessions| == |JsonNames(files)|
      ensures forall e :: e in sessions ==>
                e.filename in files && IsJson(e.filename) && e == InfoOf(e.filename, files[e.filename])
      ensures forall f :: f in files && IsJson(f) ==> InfoOf(f, files[f]) in sessions
      ensures SortedByTimestampDesc(sessions)
    {
      if !dirExists {
        return [];
      }
      var found := CollectSessions();
      sessions := SortByTimestampDesc(found);
      SameEntries(found, sessions);
    }

    /** `load_session`: the messages stored under `filename`, or `NotFound`
        when no such file exists. */
    method LoadSession(filename: string) returns (r: Result<seq<Message>, StoreError>)
      requires Valid()
      ensures filename in files ==> r == Ok(files[filename].messages)
      ensures filename !in files ==> r == Err(NotFound)
    {
      if filename !in files {
        return Err(NotFound);
      }
      r := Ok(files[filename].messages);
    }

    /** `delete_session`: remove `filename` if it exists; nothing else changes. */
    method DeleteSession(filename: string)
      requires Valid()
      modifies this
      ensures Valid() && dirExists == old(dirExists)
      ensures files == old(files) - {filename}
    {
      if filename in files {
        files := files - {filename};
      }
    }
  }

  /** The life cycle the unit test walks through: a saved transcript is
      listed with its message count, loads back unchanged, and after deletion
      loading it fails with `NotFound`; every other file is as before. */
  method SessionLifecycle(dir: SessionDirectory, history: seq<Message>, sessionName: string, timestamp: string)
    returns (filename: string, sessions: seq<SessionInfo>, loaded: Result<seq<Message>, StoreError>,
             reloaded: Result<seq<Message>, StoreError>)
    requires dir.Valid()
    modifies dir
    ensures dir.Valid()
    ensures exists k :: 0 <= k < |sessions| && sessions[k].filename == filename
                        && sessions[k].messageCount == |history|
    ensures loaded == Ok(history)
    ensures reloaded == Err(NotFound)
    ensures dir.files == old(dir.files) - {filename}
  {
    filename := dir.SaveSession(history, sessionName, timestamp);
    sessions := dir.ListSessions();
    var e := InfoOf(filename, Snapshot(sessionName, timestamp, history));
    assert e in sessions;
    loaded := dir.LoadSession(filename);
    dir.DeleteSession(filename);
    reloaded := dir.LoadSession(filename);
  }
}
