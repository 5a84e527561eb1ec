/**
 Committing a construct command: validate, write, or roll the files back. Documents are their written text, and
 validation is any predicate of a document and of the other files in the harness directory: it loads the hooks and
 extensions the document names.
 */
module SpecCommit {
  import opened Options

  const HARNESS := "harness.yaml"

  type Files = map<string, string>

  /** Full validation: the schema, and the hooks resolved against the files beside the document. */
  type Validation = (string, Files) -> bool

  /** What the environment answers while one command commits: trust, the atomic write, and what follows it. */
  datatype Checks = Checks(trusted: bool, written: bool, logged: bool)

  /** One command: the stub files it would scaffold, its edit of the document, and how its commit is answered. */
  datatype Command = Command(stubs: Files, edit: string -> Option<string>, checks: Checks)

  /** The files a document is validated against. */
  function Beside(files: Files): Files {
    files - {HARNESS}
  }

  /** The stub files a command really creates: existing files are never scaffolded over. */
  function NewStubs(files: Files, stubs: Files): Files {
    map path | path in stubs && path !in files :: stubs[path]
  }

  /** The files while the command's document is validated: its stubs are there. */
  function Staged(files: Files, command: Command): Files {
    files + NewStubs(files, command.stubs)
  }

  /** The command gets as far as replacing the document. */
  predicate Writes(valid: Validation, files: Files, command: Command)
    requires HARNESS in files
  {
    var document := command.edit(files[HARNESS]);
    && document.Some? && command.checks.trusted
    && valid(document.value, Beside(Staged(files, command)))
    && command.checks.written
  }

  predicate Succeeds(valid: Validation, files: Files, command: Command)
    requires HARNESS in files
  {
    Writes(valid, files, command) && command.checks.logged
  }

  /** Taking the new stubs away leaves what was there; a write of the document does not depend on the order. */
  lemma Unstaged(files: Files, command: Command)
    requires HARNESS in files
    ensures HARNESS !in NewStubs(files, command.stubs).Keys
    ensures Staged(files, command) - NewStubs(files, command.stubs).Keys == files
    ensures Staged(files, command) + map[] == Staged(files, command) && files + map[] == files
    ensures forall d :: files + map[HARNESS := d] == files[HARNESS := d]
    ensures forall d :: Staged(files, command) + map[HARNESS := d] == Staged(files, command)[HARNESS := d]
  {
  }

  class HarnessDir {
    const valid: Validation
    var files: Files
    var log: seq<bool>
    /** The files beside the document when it was last written. */
    ghost var writtenBeside: Files

    /** The document on disk passed full validation, against the files there were when it was written. */
    ghost predicate Valid()
      reads this
    {
      HARNESS in files && valid(files[HARNESS], writtenBeside)
    }

    constructor (valid: Validation, document: string, others: Files)
      requires valid(document, Beside(others))
      ensures Valid() && this.valid == valid && files == others[HARNESS := document] && writtenBeside == Beside(others)
    {
      this.valid := valid;
      files, log, writtenBeside := others[HARNESS := document], [], Beside(others);
    }

    /**
     `_commit`. Before the write any failure takes the created files away again and changes nothing else;
     after it the document stays, and only the created files go.
     */
    method Commit(document: string, created: set<string>, c: Checks) returns (ok: bool)
      requires Valid() && HARNESS !in created
      modifies this
      ensures Valid()
      ensures var written := c.trusted && valid(document, Beside(old(files))) && c.written;
              && (ok <==> written && c.logged)
              && writtenBeside == (if written then Beside(old(files)) else old(writtenBeside))
              && files == (if ok then old(files) else old(files) - created) +
                          (if written then map[HARNESS := document] else map[])
      ensures log == old(log) + [ok]
    {
      if c.trusted && valid(document, Beside(files)) {
        if c.written {
          writtenBeside := Beside(files);
          files := files[HARNESS := document];
          if c.logged {
            log := log + [true];
            return true;
          }
        }
      }
      files := files - created;
      log := log + [false];
      return false;
    }

    /**
     A whole command: scaffold, edit the loaded document, commit. An edit may raise, and then nothing commits. A
     document is written exactly when it is valid beside the files then there, the new stubs included.
     */
    method Execute(command: Command) returns (ok: bool)
      requires Valid()
      modifies this
      ensures Valid() && (ok <==> Succeeds(valid, old(files), command))
      ensures files == FilesAfter(valid, old(files), command)
      ensures writtenBeside == if Writes(valid, old(files), command) then Beside(Staged(old(files), command))
                               else old(writtenBeside)
    {
      var stubs := NewStubs(files, command.stubs);
      var document := command.edit(files[HARNESS]);
      ghost var before := files;
      files := files + stubs;
      if document.None? {
        return false;
      }
      Unstaged(before, command);
      ok := Commit(document.value, stubs.Keys, command.checks);
    }

    /** A sequence of commands, the later ones after failures of the earlier. */
    method ExecuteAll(commands: seq<Command>)
      requires Valid()
      modifies this
      ensures Valid() && files == After(valid, old(files), commands)
    {
      var k := 0;
      while k < |commands|
        invariant k <= |commands| && Valid() && files == After(valid, old(files), commands[..k])
      {
        assert commands[..k + 1][..k] == commands[..k];
        var ok := Execute(commands[k]);
        k := k + 1;
      }
      assert commands[..k] == commands;
    }
  }

  /** The files a command leaves. */
  function FilesAfter(valid: Validation, files: Files, command: Command): (r: Files)
    requires HARNESS in files
    ensures HARNESS in r
  {
    var document := command.edit(files[HARNESS]);
    if document.None? then Staged(files, command)
    else if Succeeds(valid, files, command) then Staged(files, command)[HARNESS := document.value]
    else if Writes(valid, files, command) then files[HARNESS := document.value]
    else files
  }

  function After(valid: Validation, files: Files, commands: seq<Command>): (r: Files)
    requires HARNESS in files
    ensures HARNESS in r
  {
    if commands == [] then files
    else FilesAfter(valid, After(valid, files, commands[..|commands| - 1]), commands[|commands| - 1])
  }

  /** Some command of the sequence wrote the document, and when it did the document was valid beside those files. */
  ghost predicate WrittenBy(valid: Validation, files: Files, commands: seq<Command>, k: nat, document: string)
    requires HARNESS in files
  {
    && k < |commands|
    && var at := After(valid, files, commands[..k]);
       && Writes(valid, at, commands[k]) && commands[k].edit(at[HARNESS]) == Some(document)
       && valid(document, Beside(Staged(at, commands[k])))
  }

  /**
   Over any sequence of commands, whatever raises in them, the document on disk is the one from the start or one
   that some command wrote, valid beside the files there were when it did.
   */
  lemma {:induction false} DocumentWasValidated(valid: Validation, files: Files, commands: seq<Command>)
    requires HARNESS in files
    ensures var last := After(valid, files, commands)[HARNESS];
            last == files[HARNESS] || exists k: nat :: WrittenBy(valid, files, commands, k, last)
  {
    if commands != [] {
      var n := |commands| - 1;
      var front := commands[..n];
      DocumentWasValidated(valid, files, front);
      var before, last := After(valid, files, front), After(valid, files, commands)[HARNESS];
      if last != before[HARNESS] {
        assert WrittenBy(valid, files, commands, n, last);
      } else if last != files[HARNESS] {
        var k: nat :| WrittenBy(valid, files, front, k, last);
        assert front[..k] == commands[..k] && front[k] == commands[k];
        assert WrittenBy(valid, files, commands, k, last);
      }
    }
  }

  /** A command that succeeds leaves a document that is valid beside the files now on disk, its stubs among them. */
  lemma SuccessLeavesValid(valid: Validation, files: Files, command: Command)
    requires HARNESS in files && Succeeds(valid, files, command)
    ensures var r := FilesAfter(valid, files, command);
            && valid(r[HARNESS], Beside(r))
            && command.edit(files[HARNESS]) == Some(r[HARNESS])
            && r.Keys == files.Keys + command.stubs.Keys
            && (forall path <- r.Keys - {"harness.yaml"} ::
                  r[path] == if path in files then files[path] else command.stubs[path])
  {
    var r := FilesAfter(valid, files, command);
    assert Beside(r) == Beside(Staged(files, command));
  }

  /**
   A command that fails in its commit leaves every file as it was exactly when it failed before the write, or
   wrote what was there; in any case no other file than the document has changed.
   */
  lemma FailureRollsBack(valid: Validation, files: Files, command: Command)
    requires HARNESS in files && !Succeeds(valid, files, command) && command.edit(files[HARNESS]).Some?
    ensures var r := FilesAfter(valid, files, command);
            && (r == files <==> !Writes(valid, files, command) || command.edit(files[HARNESS]) == Some(files[HARNESS]))
            && Beside(r) == Beside(files)
  {
    var document := command.edit(files[HARNESS]).value;
    if document != files[HARNESS] {
      assert files[HARNESS := document][HARNESS] != files[HARNESS];
    } else {
      assert files[HARNESS := document] == files;
    }
  }

  /** A command whose edit raises writes no document, and the stubs it scaffolded stay, since nothing commits. */
  lemma RaisingEditLeavesStubs(valid: Validation, files: Files, command: Command)
    requires HARNESS in files && command.edit(files[HARNESS]).None?
    ensures var r := FilesAfter(valid, files, command);
            && r.Keys == files.Keys + command.stubs.Keys
            && (forall path <- r :: r[path] == if path in files then files[path] else command.stubs[path])
  {
  }

  /**
   A failure after the write takes away stubs that the new document may need: the document is then valid beside
   the files left exactly when it is valid without them.
   */
  lemma LateFailureLeavesDocument(valid: Validation, files: Files, command: Command)
    requires HARNESS in files && Writes(valid, files, command) && !Succeeds(valid, files, command)
    ensures var r, document := FilesAfter(valid, files, command), command.edit(files[HARNESS]).value;
            && r[HARNESS] == document && valid(document, Beside(Staged(files, command)))
            && (valid(document, Beside(r)) <==> valid(document, Beside(files)))
  {
    assert Beside(FilesAfter(valid, files, command)) == Beside(files);
  }
}
