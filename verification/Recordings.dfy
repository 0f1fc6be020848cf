/** Recording rows and their files on disk. */
module Recordings {
  import opened Common

  // ---- filepath.Join ----------------------------------------------------------------------

  /** The text split at each '/'. */
  function Split(path: string): (r: seq<string>)
    ensures r != []
  {
    if path == "" then [""]
    else Prepend(path[0], Split(path[1..]))
  }

  function JoinWith(parts: seq<string>): string {
    if parts == [] then ""
    else if |parts| == 1 then parts[0]
    else JoinWith(parts[..|parts| - 1]) + "/" + parts[|parts| - 1]
  }

  /** Lexical clean-up of path elements: "" and "." go, ".." takes back the element before it. */
  function Resolve(parts: seq<string>, rooted: bool): seq<string> {
    if parts == [] then []
    else
      var done, part := Resolve(parts[..|parts| - 1], rooted), parts[|parts| - 1];
      if part == "" || part == "." then done
      else if part != ".." then done + [part]
      else if done != [] && done[|done| - 1] != ".." then done[..|done| - 1]
      else if rooted then done
      else done + [part]
  }

  function Clean(path: string): string {
    var rooted := path != "" && path[0] == '/';
    var text := JoinWith(Resolve(Split(path), rooted));
    if rooted then "/" + text else if text == "" then "." else text
  }

  /** Joining a directory and a name; an empty directory is left out. */
  function Join(dir: string, name: string): string {
    if dir == "" then (if name == "" then "" else Clean(name)) else Clean(dir + "/" + name)
  }

  predicate EndsWith(s: string, suffix: string) {
    |suffix| <= |s| && s[|s| - |suffix|..] == suffix
  }

  function ExtendLast(parts: seq<string>, suffix: string): (r: seq<string>)
    requires parts != []
    ensures r != []
  {
    parts[|parts| - 1 := parts[|parts| - 1] + suffix]
  }

  /** One more character at the front of the split text. */
  function Prepend(c: char, parts: seq<string>): (r: seq<string>)
    requires parts != []
    ensures r != []
  {
    if c == '/' then [""] + parts else [[c] + parts[0]] + parts[1..]
  }

  lemma PrependExtend(c: char, parts: seq<string>, suffix: string)
    requires parts != []
    ensures Prepend(c, ExtendLast(parts, suffix)) == ExtendLast(Prepend(c, parts), suffix)
  {
    if |parts| == 1 {
      assert [c] + (parts[0] + suffix) == ([c] + parts[0]) + suffix;
    }
  }

  /** Text with no '/' extends the last element and leaves the others alone. */
  lemma {:induction false} SplitSuffix(path: string, suffix: string)
    requires '/' !in suffix
    ensures Split(path + suffix) == ExtendLast(Split(path), suffix)
  {
    if path == "" {
      assert path + suffix == suffix;
      SplitPlain(suffix);
    } else {
      SplitSuffix(path[1..], suffix);
      assert (path + suffix)[1..] == path[1..] + suffix;
      PrependExtend(path[0], Split(path[1..]), suffix);
    }
  }

  lemma {:induction false} SplitPlain(text: string)
    requires '/' !in text
    ensures Split(text) == [text]
  {
    if text != "" {
      SplitPlain(text[1..]);
      assert [text[0]] + text[1..] == text;
    }
  }

  lemma EndsWithAfter(front: string, s: string, suffix: string)
    requires EndsWith(s, suffix)
    ensures EndsWith(front + s, suffix)
  {
    var all := front + s;
    assert all[|all| - |suffix|..] == s[|s| - |suffix|..];
  }

  lemma JoinKeepsLast(parts: seq<string>, suffix: string)
    requires parts != [] && EndsWith(parts[|parts| - 1], suffix)
    ensures EndsWith(JoinWith(parts), suffix)
  {
    if |parts| > 1 {
      EndsWithAfter(JoinWith(parts[..|parts| - 1]) + "/", parts[|parts| - 1], suffix);
    }
  }

  lemma ResolveKeepsLast(parts: seq<string>, rooted: bool)
    requires parts != [] && |parts[|parts| - 1]| > 2
    ensures Resolve(parts, rooted) == Resolve(parts[..|parts| - 1], rooted) + [parts[|parts| - 1]]
  {
  }

  /** Whatever comes before it, a final stretch that has no '/' and more than two characters survives. */
  lemma CleanKeepsSuffix(path: string, suffix: string)
    requires '/' !in suffix && |suffix| > 2
    ensures EndsWith(Clean(path + suffix), suffix)
  {
    var full := path + suffix;
    var rooted := full != "" && full[0] == '/';
    var before, parts := Split(path), Split(full);
    assert parts == ExtendLast(before, suffix) by { SplitSuffix(path, suffix); }
    var last := parts[|parts| - 1];
    assert EndsWith(last, suffix) by { EndsWithAfter(before[|before| - 1], suffix, suffix); }
    ResolveKeepsLast(parts, rooted);
    var text := JoinWith(Resolve(parts, rooted));
    assert EndsWith(text, suffix) by { JoinKeepsLast(Resolve(parts, rooted), suffix); }
    EndsWithAfter("/", text, suffix);
  }

  // ---- Rows and files ---------------------------------------------------------------------

  datatype Recording = Recording(id: string, sessionId: string, userId: string, deviceId: string, filePath: string,
                                 byteSize: Option<int>, durationSeconds: Option<int>,
                                 startedAt: Time, completedAt: Option<Time>, createdAt: Time)

  type Rows = map<string, Recording>

  function PathOf(dir: string, sessionId: string, id: string): string {
    Join(dir, sessionId + "-" + id + ".cast")
  }

  /** A canonical UUID has 36 characters, none of them a '/' (section 4 of RFC 9562). */
  predicate UuidShaped(id: string) {
    |id| == 36 && '/' !in id
  }

  /** Calls on the service, and the recorder writing a file. */
  datatype Op =
    | Create(id: string, userId: string, deviceId: string, sessionId: string)
    | Update(id: string, byteSize: int, durationSeconds: int)
    | Delete(id: string)
    | WriteFile(path: string)

  datatype Disk = Disk(rows: Rows, files: set<string>)

  function Step(dir: string, op: Op, now: Time, d: Disk): Disk {
    match op
    case Create(id, userId, deviceId, sessionId) =>
      if id in d.rows then d
      else d.(rows := d.rows[id := Recording(id, sessionId, userId, deviceId, PathOf(dir, sessionId, id),
                                             None, None, now, None, now)])
    case Update(id, byteSize, durationSeconds) =>
      if id !in d.rows then d
      else d.(rows := d.rows[id := d.rows[id].(byteSize := Some(byteSize), durationSeconds := Some(durationSeconds),
                                               completedAt := Some(now))])
    case Delete(id) =>
      if id !in d.rows then d
      else Disk(d.rows - {id}, d.files - {d.rows[id].filePath})
    case WriteFile(path) => d.(files := d.files + {path})
  }

  datatype Result = Created(id: string) | Done | Failed(message: string)

  class RecordingService {
    const recordingDir: string
    var rows: Rows
    var files: set<string>

    constructor (recordingDir: string)
      ensures this.recordingDir == if recordingDir == "" then "/var/lib/jenn-edge/recordings" else recordingDir
      ensures rows == map[] && files == {}
    {
      this.recordingDir := if recordingDir == "" then "/var/lib/jenn-edge/recordings" else recordingDir;
      rows := map[];
      files := {};
    }

    function Now(): Disk
      reads this
    {
      Disk(rows, files)
    }

    method CreateRecording(id: string, userId: string, deviceId: string, sessionId: string, now: Time)
      returns (r: Result)
      modifies this
      ensures Now() == Step(recordingDir, Create(id, userId, deviceId, sessionId), now, old(Now()))
      ensures r == if id in old(rows) then Failed("failed to create recording") else Created(id)
    {
      var filePath := Join(recordingDir, sessionId + "-" + id + ".cast");
      if id in rows {
        return Failed("failed to create recording");
      }
      rows := rows[id := Recording(id, sessionId, userId, deviceId, filePath, None, None, now, None, now)];
      return Created(id);
    }

    method GetRecording(id: string) returns (r: Option<Recording>)
      ensures r == if id in rows then Some(rows[id]) else None
    {
      return if id in rows then Some(rows[id]) else None;
    }

    /** An update of an unknown recording reports success and changes nothing. */
    method UpdateRecording(id: string, byteSize: int, durationSeconds: int, now: Time) returns (r: Result)
      modifies this
      ensures Now() == Step(recordingDir, Update(id, byteSize, durationSeconds), now, old(Now()))
      ensures r == Done
    {
      if id in rows {
        rows := rows[id := rows[id].(byteSize := Some(byteSize), durationSeconds := Some(durationSeconds),
                                     completedAt := Some(now))];
      }
      return Done;
    }

    method DeleteRecording(id: string, now: Time) returns (r: Result)
      modifies this
      ensures Now() == Step(recordingDir, Delete(id), now, old(Now()))
      ensures r == if id in old(rows) then Done else Failed("recording not found: " + id)
      ensures rows == old(rows) - {id}
      ensures files == if id in old(rows) then old(files) - {old(rows)[id].filePath} else old(files)
    {
      if id !in rows {
        return Failed("recording not found: " + id);
      }
      var filePath := rows[id].filePath;
      rows := rows - {id};
      files := files - {filePath};
      return Done;
    }
  }

  // ---- Runs -------------------------------------------------------------------------------

  /** The state after a run from an empty store and an empty disk. */
  function After(dir: string, ops: seq<(Op, Time)>): Disk {
    if ops == [] then Disk(map[], {})
    else
      var (op, now) := ops[|ops| - 1];
      Step(dir, op, now, After(dir, ops[..|ops| - 1]))
  }

  /** The identifiers handed out are UUIDs. */
  ghost predicate UuidRun(ops: seq<(Op, Time)>) {
    forall o <- ops :: o.0.Create? ==> UuidShaped(o.0.id)
  }

  /** Every path ends with its own recording's id, whatever directory and session id went in. */
  lemma PathEndsWithId(dir: string, sessionId: string, id: string)
    requires UuidShaped(id)
    ensures EndsWith(PathOf(dir, sessionId, id), "-" + id + ".cast")
  {
    var suffix := "-" + id + ".cast";
    var name := sessionId + "-" + id + ".cast";
    assert name == sessionId + suffix;
    CleanKeepsSuffix(sessionId, suffix);
    CleanKeepsSuffix(dir + "/" + sessionId, suffix);
    assert dir + "/" + name == dir + "/" + sessionId + suffix;
  }

  /** Two recordings have different paths, even for session ids that climb out of the directory. */
  lemma PathsAreUnique(dir: string, s1: string, id1: string, s2: string, id2: string)
    requires UuidShaped(id1) && UuidShaped(id2) && id1 != id2
    ensures PathOf(dir, s1, id1) != PathOf(dir, s2, id2)
  {
    PathEndsWithId(dir, s1, id1);
    PathEndsWithId(dir, s2, id2);
    var x, y := "-" + id1 + ".cast", "-" + id2 + ".cast";
    assert x[1..37] == id1 && y[1..37] == id2;
  }

  ghost predicate RowsSound(dir: string, rows: Rows) {
    forall id <- rows :: rows[id].id == id && UuidShaped(id) && rows[id].filePath == PathOf(dir, rows[id].sessionId, id)
  }

  lemma {:induction false} RowsStaySound(dir: string, ops: seq<(Op, Time)>)
    requires UuidRun(ops)
    ensures RowsSound(dir, After(dir, ops).rows)
  {
    if ops != [] {
      var front := ops[..|ops| - 1];
      assert ops == front + [ops[|ops| - 1]];
      RowsStaySound(dir, front);
    }
  }

  /** No two live recordings ever share a path. */
  lemma LivePathsDiffer(dir: string, ops: seq<(Op, Time)>, a: string, b: string)
    requires UuidRun(ops) && a != b && a in After(dir, ops).rows && b in After(dir, ops).rows
    ensures After(dir, ops).rows[a].filePath != After(dir, ops).rows[b].filePath
  {
    RowsStaySound(dir, ops);
    var rows := After(dir, ops).rows;
    PathsAreUnique(dir, rows[a].sessionId, a, rows[b].sessionId, b);
  }

  /** A live recording's file goes away exactly when its own DeleteRecording runs. */
  lemma OnlyItsOwnDeleteRemovesAFile(dir: string, ops: seq<(Op, Time)>, op: Op, now: Time, id: string)
    requires UuidRun(ops) && id in After(dir, ops).rows
    requires After(dir, ops).rows[id].filePath in After(dir, ops).files
    ensures var d := After(dir, ops);
            d.rows[id].filePath !in Step(dir, op, now, d).files <==> op == Delete(id)
  {
    var d := After(dir, ops);
    if op.Delete? && op.id in d.rows && op.id != id {
      LivePathsDiffer(dir, ops, op.id, id);
    }
  }

  /** The recording is live and its file, at the given path, is on disk. */
  ghost predicate HasFile(d: Disk, id: string, path: string) {
    id in d.rows && d.rows[id].filePath == path && path in d.files
  }

  /** Over a whole run, a file written for a recording stays until that recording is deleted. */
  lemma {:induction false} FilesOutliveOtherDeletes(dir: string, ops: seq<(Op, Time)>, more: seq<(Op, Time)>,
                                                    id: string, path: string)
    requires UuidRun(ops + more) && HasFile(After(dir, ops), id, path)
    requires forall o <- more :: o.0 != Delete(id)
    ensures HasFile(After(dir, ops + more), id, path)
  {
    if more == [] {
      assert ops + more == ops;
    } else {
      var front, last := more[..|more| - 1], more[|more| - 1];
      assert ops + more == (ops + front) + [last];
      assert more == front + [last];
      FilesOutliveOtherDeletes(dir, ops, front, id, path);
      OnlyItsOwnDeleteRemovesAFile(dir, ops + front, last.0, last.1, id);
      OtherOpsKeepRow(dir, last.0, last.1, After(dir, ops + front), id);
      assert After(dir, ops + more) == Step(dir, last.0, last.1, After(dir, ops + front));
    }
  }

  lemma OtherOpsKeepRow(dir: string, op: Op, now: Time, d: Disk, id: string)
    requires id in d.rows && op != Delete(id)
    ensures id in Step(dir, op, now, d).rows && Step(dir, op, now, d).rows[id].filePath == d.rows[id].filePath
  {
  }
}
