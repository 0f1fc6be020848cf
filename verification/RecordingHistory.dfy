/** What a run of the recording service leaves behind, read off its operations. */
module RecordingHistory {
  import opened Common
  import opened Recordings

  // ---- Which recordings are live, and with which columns ----------------------------------

  /** The last creation or deletion of the recording. */
  function LastCreateOrDelete(ops: seq<(Op, Time)>, id: string): Option<Op> {
    if ops == [] then None
    else
      var op := ops[|ops| - 1].0;
      if (op.Create? || op.Delete?) && op.id == id then Some(op) else LastCreateOrDelete(ops[..|ops| - 1], id)
  }

  predicate Lives(ops: seq<(Op, Time)>, id: string) {
    LastCreateOrDelete(ops, id).Some? && LastCreateOrDelete(ops, id).value.Create?
  }

  /** After every run a recording has a row exactly when the last of its creates and deletes is a create. */
  lemma {:induction false} LiveIffLastIsCreate(dir: string, ops: seq<(Op, Time)>, id: string)
    ensures id in After(dir, ops).rows <==> Lives(ops, id)
  {
    if ops != [] {
      LiveIffLastIsCreate(dir, ops[..|ops| - 1], id);
    }
  }

  /** The creation that made the row: a repeated one, while the recording lives, is refused. */
  function CreationOf(ops: seq<(Op, Time)>, id: string): Option<(Op, Time)> {
    if ops == [] then None
    else
      var front, last := ops[..|ops| - 1], ops[|ops| - 1];
      if last.0.Create? && last.0.id == id && !Lives(front, id) then Some(last) else CreationOf(front, id)
  }

  /** The last update of the recording in its present life. */
  function UpdateOf(ops: seq<(Op, Time)>, id: string): Option<(Op, Time)> {
    if ops == [] then None
    else
      var front, op, now := ops[..|ops| - 1], ops[|ops| - 1].0, ops[|ops| - 1].1;
      if op.Update? && op.id == id && Lives(front, id) then Some((op, now))
      else if op == Delete(id) then None
      else UpdateOf(front, id)
  }

  /** The row is the creation's, with the numbers and the completion time of the last update. */
  ghost predicate IsTheRow(row: Recording, dir: string, id: string, c: (Op, Time), u: Option<(Op, Time)>)
    requires c.0.Create?
    requires u.Some? ==> u.value.0.Update?
  {
    && row.id == id == c.0.id
    && row.userId == c.0.userId && row.deviceId == c.0.deviceId && row.sessionId == c.0.sessionId
    && row.filePath == PathOf(dir, c.0.sessionId, id)
    && row.startedAt == c.1 && row.createdAt == c.1
    && row.byteSize == (if u.Some? then Some(u.value.0.byteSize) else None)
    && row.durationSeconds == (if u.Some? then Some(u.value.0.durationSeconds) else None)
    && row.completedAt == (if u.Some? then Some(u.value.1) else None)
  }

  lemma {:induction false} HistoryKinds(ops: seq<(Op, Time)>, id: string)
    ensures CreationOf(ops, id).Some? ==> CreationOf(ops, id).value.0.Create?
    ensures UpdateOf(ops, id).Some? ==> UpdateOf(ops, id).value.0.Update?
    ensures Lives(ops, id) ==> CreationOf(ops, id).Some?
    ensures !Lives(ops, id) ==> UpdateOf(ops, id).None?
  {
    if ops != [] {
      HistoryKinds(ops[..|ops| - 1], id);
    }
  }

  /** One operation and one row that was there before it. */
  lemma StepOnRow(dir: string, op: Op, now: Time, d: Disk, id: string)
    requires id in d.rows && op != Delete(id)
    ensures
      var next := Step(dir, op, now, d).rows;
      && id in next
      && (if op.Update? && op.id == id then
            next[id] == d.rows[id].(byteSize := Some(op.byteSize), durationSeconds := Some(op.durationSeconds),
                                    completedAt := Some(now))
          else next[id] == d.rows[id])
  {
  }

  /** After every run, every column of a live recording is read off the run. */
  lemma {:induction false} RowTellsItsHistory(dir: string, ops: seq<(Op, Time)>, id: string)
    requires id in After(dir, ops).rows
    ensures
      && CreationOf(ops, id).Some? && CreationOf(ops, id).value.0.Create?
      && (UpdateOf(ops, id).Some? ==> UpdateOf(ops, id).value.0.Update?)
      && IsTheRow(After(dir, ops).rows[id], dir, id, CreationOf(ops, id).value, UpdateOf(ops, id))
  {
    var front, op, now := ops[..|ops| - 1], ops[|ops| - 1].0, ops[|ops| - 1].1;
    LiveIffLastIsCreate(dir, front, id);
    HistoryKinds(ops, id);
    HistoryKinds(front, id);
    if id in After(dir, front).rows {
      RowTellsItsHistory(dir, front, id);
      StepOnRow(dir, op, now, After(dir, front), id);
    }
  }

  /** The path that the last operation removes from the disk, if it deletes a live recording. */
  function Removed(dir: string, ops: seq<(Op, Time)>): Option<string>
    requires ops != []
  {
    var front, op := ops[..|ops| - 1], ops[|ops| - 1].0;
    if op.Delete? && Lives(front, op.id) && CreationOf(front, op.id).Some? && CreationOf(front, op.id).value.0.Create?
    then Some(PathOf(dir, CreationOf(front, op.id).value.0.sessionId, op.id))
    else None
  }

  /** The file was written, and no live recording with that path was deleted since. */
  predicate OnDisk(dir: string, ops: seq<(Op, Time)>, path: string) {
    if ops == [] then false
    else if ops[|ops| - 1].0 == WriteFile(path) then true
    else Removed(dir, ops) != Some(path) && OnDisk(dir, ops[..|ops| - 1], path)
  }

  /** After every run, which files are on disk is read off the run. */
  lemma {:induction false} FilesTellTheirHistory(dir: string, ops: seq<(Op, Time)>, path: string)
    ensures path in After(dir, ops).files <==> OnDisk(dir, ops, path)
  {
    if ops != [] {
      var front, op := ops[..|ops| - 1], ops[|ops| - 1].0;
      FilesTellTheirHistory(dir, front, path);
      if op.Delete? {
        LiveIffLastIsCreate(dir, front, op.id);
        if op.id in After(dir, front).rows {
          RowTellsItsHistory(dir, front, op.id);
        }
      }
    }
  }

  // ---- Paths ------------------------------------------------------------------------------

  /** An ordinary path element. */
  predicate Plain(name: string) {
    name != "" && name != "." && name != ".." && '/' !in name
  }

  lemma {:induction false} SplitLast(dir: string, name: string)
    requires '/' !in name
    ensures Split(dir + "/" + name) == Split(dir) + [name]
  {
    if dir == "" {
      assert dir + "/" + name == ['/'] + name;
      SplitPlain(name);
    } else {
      SplitLast(dir[1..], name);
      assert dir + "/" + name == [dir[0]] + (dir[1..] + "/" + name);
      assert Split(dir + "/" + name) == Prepend(dir[0], Split(dir[1..]) + [name]);
    }
  }

  lemma ResolveSnoc(parts: seq<string>, part: string, rooted: bool)
    ensures
      var done := Resolve(parts, rooted);
      Resolve(parts + [part], rooted)
      == if part == "" || part == "." then done
         else if part != ".." then done + [part]
         else if done != [] && done[|done| - 1] != ".." then done[..|done| - 1]
         else if rooted then done
         else done + [part]
  {
    var all := parts + [part];
    assert all[..|all| - 1] == parts && all[|all| - 1] == part;
  }

  predicate Ordinary(part: string) {
    part != "" && part != "." && '/' !in part
  }

  lemma {:induction false} SplitHasNoSlash(path: string)
    ensures forall p <- Split(path) :: '/' !in p
  {
    if path != "" {
      SplitHasNoSlash(path[1..]);
    }
  }

  lemma {:induction false} ResolvedIsOrdinary(parts: seq<string>, rooted: bool)
    requires forall p <- parts :: '/' !in p
    ensures forall p <- Resolve(parts, rooted) :: Ordinary(p)
  {
    if parts != [] {
      assert parts[|parts| - 1] in parts;
      ResolvedIsOrdinary(parts[..|parts| - 1], rooted);
    }
  }

  lemma JoinedIsOrdinary(parts: seq<string>)
    requires forall p <- parts :: Ordinary(p)
    ensures JoinWith(parts) == "" <==> parts == []
    ensures JoinWith(parts) != "." && JoinWith(parts) != "/"
  {
    if |parts| == 1 {
      assert Ordinary(parts[0]);
      assert '/' !in parts[0];
    } else if |parts| > 1 {
      var front, last := parts[..|parts| - 1], parts[|parts| - 1];
      assert Ordinary(last) && forall p <- front :: p in parts;
      JoinedIsOrdinary(front);
      assert |JoinWith(front) + "/" + last| >= 3;
    }
  }

  lemma JoinSnoc(parts: seq<string>, name: string)
    ensures JoinWith(parts + [name]) == if parts == [] then name else JoinWith(parts) + "/" + name
  {
    assert (parts + [name])[..|parts|] == parts;
  }

  /** How a list of elements is written. */
  function Written(parts: seq<string>, rooted: bool): string {
    if rooted then "/" + JoinWith(parts) else if JoinWith(parts) == "" then "." else JoinWith(parts)
  }

  /** Clean-up of a path with one more element, which may be empty. */
  lemma CleanLonger(dir: string, part: string)
    requires dir != "" && '/' !in part
    ensures Clean(dir + "/" + part) == Written(Resolve(Split(dir) + [part], dir[0] == '/'), dir[0] == '/')
  {
    SplitLast(dir, part);
    assert (dir + "/" + part)[0] == dir[0];
  }

  lemma WrittenSnoc(done: seq<string>, name: string, rooted: bool)
    requires Plain(name) && forall p <- done :: Ordinary(p)
    ensures Written(done + [name], rooted) == if Written(done, rooted) == "." then name
                                              else if Written(done, rooted) == "/" then "/" + name
                                              else Written(done, rooted) + "/" + name
  {
    JoinedIsOrdinary(done);
    JoinSnoc(done, name);
    JoinedNameIsNotEmpty(done, name);
    if rooted {
      RootedText(JoinWith(done), name);
    }
  }

  lemma JoinedNameIsNotEmpty(done: seq<string>, name: string)
    requires name != ""
    ensures JoinWith(done + [name]) != ""
  {
    JoinSnoc(done, name);
  }

  lemma RootedText(text: string, name: string)
    ensures "/" + text == "/" <==> text == ""
    ensures "/" + text != "."
    ensures "/" + (text + "/" + name) == ("/" + text) + "/" + name
  {
    assert ("/" + text)[0] == '/' && |"/" + text| == 1 + |text|;
  }

  /** For an ordinary name, the joined path is the cleaned directory, a slash and the name. */
  lemma JoinPlain(dir: string, name: string)
    requires dir != "" && Plain(name)
    ensures Join(dir, name) == if Clean(dir) == "." then name
                               else if Clean(dir) == "/" then "/" + name
                               else Clean(dir) + "/" + name
  {
    var rooted := dir[0] == '/';
    CleanLonger(dir, name);
    ResolveSnoc(Split(dir), name, rooted);
    SplitHasNoSlash(dir);
    ResolvedIsOrdinary(Split(dir), rooted);
    WrittenSnoc(Resolve(Split(dir), rooted), name, rooted);
  }

  /** Empty elements and dots are skipped. */
  lemma CleanSkips(dir: string, part: string)
    requires dir != "" && (part == "" || part == ".")
    ensures Clean(dir + "/" + part) == Clean(dir)
  {
    CleanLonger(dir, part);
    ResolveSnoc(Split(dir), part, dir[0] == '/');
  }

  /** Two dots take back the element before them. */
  lemma DotsTakeBack(dir: string, name: string)
    requires dir != "" && Plain(name)
    ensures Clean(dir + "/" + name + "/" + "..") == Clean(dir)
  {
    var deeper, rooted := dir + "/" + name, dir[0] == '/';
    var done := Resolve(Split(dir), rooted);
    assert deeper[0] == dir[0];
    CleanLonger(deeper, "..");
    SplitLast(dir, name);
    ResolveSnoc(Split(dir), name, rooted);
    ResolveSnoc(Split(dir) + [name], "..", rooted);
    assert (done + [name])[..|done|] == done;
  }

  lemma {:induction false} ResolvePlain(parts: seq<string>, rooted: bool)
    requires forall p <- parts :: Plain(p)
    ensures Resolve(parts, rooted) == parts
  {
    if parts != [] {
      var front, last := parts[..|parts| - 1], parts[|parts| - 1];
      assert Plain(last) && forall p <- front :: p in parts;
      ResolvePlain(front, rooted);
      assert front + [last] == parts;
    }
  }

  lemma {:induction false} SplitUndoesJoin(parts: seq<string>)
    requires parts != [] && forall p <- parts :: Plain(p)
    ensures Split(JoinWith(parts)) == parts
  {
    var front, last := parts[..|parts| - 1], parts[|parts| - 1];
    assert Plain(last) && forall p <- front :: p in parts;
    if front == [] {
      SplitPlain(last);
    } else {
      SplitUndoesJoin(front);
      SplitLast(JoinWith(front), last);
      assert front + [last] == parts;
    }
  }

  /** An absolute path of ordinary names is clean as it is. */
  lemma CleanKeepsPlainPaths(parts: seq<string>)
    requires parts != [] && forall p <- parts :: Plain(p)
    ensures Clean("/" + JoinWith(parts)) == "/" + JoinWith(parts)
  {
    var path := "/" + JoinWith(parts);
    SplitUndoesJoin(parts);
    assert path[1..] == JoinWith(parts);
    assert Split(path) == [""] + parts;
    ResolveLeadingEmpty(parts);
    ResolvePlain(parts, true);
  }

  lemma {:induction false} ResolveLeadingEmpty(parts: seq<string>)
    ensures Resolve([""] + parts, true) == Resolve(parts, true)
  {
    if parts == [] {
      assert [""] + parts == [""] && [""][..0] == [];
    } else {
      var front, last := parts[..|parts| - 1], parts[|parts| - 1];
      ResolveLeadingEmpty(front);
      assert ([""] + parts)[..|parts|] == [""] + front;
    }
  }

  /** In an absolute directory of ordinary names, for a session id without a slash: the path, literally. */
  lemma PathInPlainDirectory(parts: seq<string>, sessionId: string, id: string)
    requires parts != [] && (forall p <- parts :: Plain(p)) && '/' !in sessionId && UuidShaped(id)
    ensures PathOf("/" + JoinWith(parts), sessionId, id)
            == "/" + JoinWith(parts) + "/" + (sessionId + "-" + id + ".cast")
  {
    var dir := "/" + JoinWith(parts);
    CleanKeepsPlainPaths(parts);
    NameIsPlain(sessionId, id);
    JoinPlain(dir, sessionId + "-" + id + ".cast");
    assert forall p <- parts :: Ordinary(p);
    JoinedIsOrdinary(parts);
    assert dir[1..] == JoinWith(parts);
  }

  lemma NameIsPlain(sessionId: string, id: string)
    requires '/' !in sessionId && UuidShaped(id)
    ensures Plain(sessionId + "-" + id + ".cast")
  {
    assert |sessionId + "-" + id + ".cast"| > 2;
  }
}
