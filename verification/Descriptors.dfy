/** The descriptor table with shared file objects and pipes (kernel/fd.c): reference counts, pipe ends and the pipe
    ring. */
module Descriptors {
  import opened Hardware

  const PROCESSES := 16
  const PER_PROCESS := 64
  const FILES := 1024
  const PIPES := 16
  const PIPE_BUFFER := 4096

  /** `Other` stands for the kinds of fd_create_custom, with the object they carry. */
  datatype Kind = Regular | Directory | PipeRead | PipeWrite | Pty | Other(code: int, handle: nat)

  /** A file object; `pipeId` names the pipe of a pipe end. */
  datatype File = File(refs: nat, kind: Kind, pipeId: nat, canRead: bool, canWrite: bool)
  datatype Descriptor = Descriptor(open: bool, file: nat)

  /** A pipe: how many ends of each kind exist, and the ring of bytes. */
  datatype Pipe = Pipe(live: bool, readers: nat, writers: nat, head: nat, tail: nat, used: nat, data: Page)

  predicate Names(e: Descriptor, f: nat) { e.open && e.file == f }

  // ---------------------------------------------------------------- counting references

  /** How many open entries name file `f`. */
  function Count(es: seq<Descriptor>, f: nat): nat {
    if es == [] then 0 else Count(es[..|es| - 1], f) + if Names(es[|es| - 1], f) then 1 else 0
  }

  lemma {:induction false} CountUpdate(es: seq<Descriptor>, i: nat, e: Descriptor, f: nat)
    requires i < |es|
    ensures Count(es[i := e], f) == Count(es, f) - (if Names(es[i], f) then 1 else 0) + (if Names(e, f) then 1 else 0)
  {
    var n := |es| - 1;
    if i == n {
      assert es[i := e][..n] == es[..n];
    } else {
      assert es[i := e][..n] == es[..n][i := e];
      CountUpdate(es[..n], i, e, f);
    }
  }

  lemma {:induction false} CountNamed(es: seq<Descriptor>, f: nat)
    ensures Count(es, f) == 0 <==> forall i :: 0 <= i < |es| ==> !Names(es[i], f)
  {
    if es != [] {
      CountNamed(es[..|es| - 1], f);
      assert forall i :: 0 <= i < |es| - 1 ==> es[..|es| - 1][i] == es[i];
    }
  }

  /** Every reference count is the number of open entries that name the file. */
  ghost predicate RefsOk(es: seq<Descriptor>, fs: seq<File>) {
    && |es| == PROCESSES * PER_PROCESS && |fs| == FILES
    && (forall i :: 0 <= i < |es| && es[i].open ==> es[i].file < FILES)
    && (forall f :: 0 <= f < FILES ==> fs[f].refs == Count(es, f))
  }

  /** An entry is opened on file `f`, or closed. */
  lemma RefsStep(es: seq<Descriptor>, fs: seq<File>, i: nat, f: nat, file: File)
    requires RefsOk(es, fs) && i < |es| && f < FILES
    requires if es[i].open then es[i].file == f && file.refs == fs[f].refs - 1 else file.refs == fs[f].refs + 1
    ensures RefsOk(es[i := if es[i].open then es[i].(open := false) else Descriptor(true, f)], fs[f := file])
    ensures es[i].open ==> fs[f].refs > 0
  {
    var e := if es[i].open then es[i].(open := false) else Descriptor(true, f);
    var es', fs' := es[i := e], fs[f := file];
    forall g | 0 <= g < FILES ensures fs'[g].refs == Count(es', g) { CountUpdate(es, i, e, g); }
    CountNamed(es, f);
  }

  // ---------------------------------------------------------------- what stays

  lemma OpenIsCounted(es: seq<Descriptor>, fs: seq<File>, i: nat)
    requires RefsOk(es, fs) && i < |es| && es[i].open
    ensures fs[es[i].file].refs > 0
  {
    CountNamed(es, es[i].file);
    assert Names(es[i], es[i].file);
  }

  /** An open entry names the same file object, which has changed at most in its count. */
  predicate Stays(es: seq<Descriptor>, fs: seq<File>, es': seq<Descriptor>, fs': seq<File>, i: nat)
    requires i < |es| == |es'|
  {
    es[i].open ==>
      var f := es[i].file;
      es'[i] == es[i] && f < |fs| == |fs'| && fs'[f] == fs[f].(refs := fs'[f].refs)
  }

  /** So does every open entry, except those in `closing`. */
  ghost predicate Persists(es: seq<Descriptor>, fs: seq<File>, es': seq<Descriptor>, fs': seq<File>,
                           closing: set<int>) {
    |es| == |es'| && forall i :: 0 <= i < |es| && i !in closing ==> Stays(es, fs, es', fs', i)
  }

  lemma PersistsAttached(es: seq<Descriptor>, fs: seq<File>, i: nat, f: nat, file: File)
    requires RefsOk(es, fs) && i < |es| && !es[i].open && f < FILES
             && (fs[f].refs == 0 || file == fs[f].(refs := file.refs))
    ensures Persists(es, fs, es[i := Descriptor(true, f)], fs[f := file], {})
  {
    forall j | 0 <= j < |es| && es[j].open ensures fs[es[j].file].refs > 0 { OpenIsCounted(es, fs, j); }
  }

  lemma PersistsDetached(es: seq<Descriptor>, fs: seq<File>, i: nat, f: nat, file: File)
    requires RefsOk(es, fs) && i < |es| && f < FILES && file == fs[f].(refs := file.refs)
    ensures Persists(es, fs, es[i := es[i].(open := false)], fs[f := file], {i})
  {}

  lemma PersistsOn(es: seq<Descriptor>, fs: seq<File>, es1: seq<Descriptor>, fs1: seq<File>, es2: seq<Descriptor>,
                   fs2: seq<File>,
                   closing: set<int>, more: set<int>)
    requires Persists(es, fs, es1, fs1, closing) && Persists(es1, fs1, es2, fs2, more)
    ensures Persists(es, fs, es2, fs2, closing + more)
  {
    forall i | 0 <= i < |es| && i !in closing + more ensures Stays(es, fs, es2, fs2, i) {
      assert Stays(es, fs, es1, fs1, i) && Stays(es1, fs1, es2, fs2, i);
    }
  }

  lemma PersistsMore(es: seq<Descriptor>, fs: seq<File>, es': seq<Descriptor>, fs': seq<File>, closing: set<int>,
                     more: set<int>)
    requires Persists(es, fs, es', fs', closing) && closing <= more
    ensures Persists(es, fs, es', fs', more)
  {}

  lemma NothingMoved(es: seq<Descriptor>, fs: seq<File>, closing: set<int>)
    requires RefsOk(es, fs)
    ensures Persists(es, fs, es, fs, closing)
  {}

  // ---------------------------------------------------------------- pipe ends

  predicate EndOf(file: File, kind: Kind, q: nat) { file.refs > 0 && file.kind == kind && file.pipeId == q }

  ghost predicate HasEnd(fs: seq<File>, kind: Kind, q: nat) { exists f :: 0 <= f < |fs| && EndOf(fs[f], kind, q) }

  ghost predicate SingleEnd(fs: seq<File>, f: int, g: int) {
    (&& 0 <= f < |fs| && 0 <= g < |fs| && IsEnd(fs[f])
     && EndOf(fs[f], fs[f].kind, fs[f].pipeId) && EndOf(fs[g], fs[f].kind, fs[f].pipeId)) ==> f == g
  }

  predicate RingOk(p: Pipe) {
    p.head < PIPE_BUFFER && p.tail < PIPE_BUFFER && p.used <= PIPE_BUFFER && p.head == (p.tail + p.used) % PIPE_BUFFER
  }

  /** A pipe counts its ends exactly, and is allocated exactly while it has one. */
  ghost predicate PipeOk(fs: seq<File>, p: Pipe, q: nat) {
    && p.readers == (if HasEnd(fs, PipeRead, q) then 1 else 0)
    && p.writers == (if HasEnd(fs, PipeWrite, q) then 1 else 0)
    && (p.live <==> HasEnd(fs, PipeRead, q) || HasEnd(fs, PipeWrite, q)) && RingOk(p)
  }

  predicate IsEnd(file: File) { file.kind == PipeRead || file.kind == PipeWrite }

  /** A pipe end names a pipe and may be used in its own direction. */
  predicate EndOk(file: File) {
    && (IsEnd(file) ==> file.pipeId < PIPES)
    && (file.kind == PipeRead ==> file.canRead)
    && (file.kind == PipeWrite ==> file.canWrite)
  }

  ghost predicate PipesOk(fs: seq<File>, ps: seq<Pipe>) {
    && |ps| == PIPES
    && (forall f :: 0 <= f < |fs| && fs[f].refs > 0 ==> EndOk(fs[f]))
    && (forall f, g {:trigger SingleEnd(fs, f, g)} :: SingleEnd(fs, f, g))
    && (forall q :: 0 <= q < PIPES ==> PipeOk(fs, ps[q], q))
  }

  ghost predicate Ok(es: seq<Descriptor>, fs: seq<File>, ps: seq<Pipe>) { RefsOk(es, fs) && PipesOk(fs, ps) }

  /** Changing a file that is no pipe end into another that is none, or adding and dropping references to a file that
      stays in use, does not concern pipes. */
  lemma PipesSame(fs: seq<File>, ps: seq<Pipe>, f: nat, file: File)
    requires PipesOk(fs, ps) && f < |fs|
    requires || ((fs[f].refs == 0 || !IsEnd(fs[f])) && (file.refs == 0 || !IsEnd(file)))
             || (fs[f].refs > 0 && file.refs > 0 && file == fs[f].(refs := file.refs))
    ensures PipesOk(fs[f := file], ps)
  {
    var fs' := fs[f := file];
    forall k, q: nat | k == PipeRead || k == PipeWrite ensures HasEnd(fs', k, q) <==> HasEnd(fs, k, q) {
      if g :| 0 <= g < |fs| && EndOf(fs[g], k, q) { assert EndOf(fs'[g], k, q); }
      if g :| 0 <= g < |fs| && EndOf(fs'[g], k, q) { assert EndOf(fs[g], k, q); }
    }
    forall a, b ensures SingleEnd(fs', a, b) { assert SingleEnd(fs, a, b); }
  }

  /** The pipe of a file object after its last reference is gone. */
  function EndDropped(p: Pipe, kind: Kind): Pipe {
    var r := if kind == PipeRead && p.readers > 0 then p.readers - 1 else p.readers;
    var w := if kind == PipeWrite && p.writers > 0 then p.writers - 1 else p.writers;
    p.(readers := r, writers := w, live := if r == 0 && w == 0 then false else p.live)
  }

  /** The last reference to a pipe end goes away. */
  lemma PipeEndGone(fs: seq<File>, ps: seq<Pipe>, f: nat, file: File)
    requires PipesOk(fs, ps) && f < |fs| && fs[f].refs > 0 && IsEnd(fs[f]) && file.refs == 0
    ensures fs[f].pipeId < PIPES
    ensures PipesOk(fs[f := file], ps[fs[f].pipeId := EndDropped(ps[fs[f].pipeId], fs[f].kind)])
  {
    var fs', k0, q0 := fs[f := file], fs[f].kind, fs[f].pipeId;
    forall k, q: nat | k == PipeRead || k == PipeWrite
      ensures HasEnd(fs', k, q) <==> HasEnd(fs, k, q) && (k, q) != (k0, q0) {
      if g :| 0 <= g < |fs| && EndOf(fs[g], k, q) && (k, q) != (k0, q0) { assert EndOf(fs'[g], k, q); }
      if g :| 0 <= g < |fs| && EndOf(fs'[g], k, q) {
        assert EndOf(fs[g], k, q);
        assert SingleEnd(fs, f, g);
      }
    }
    assert EndOf(fs[f], k0, q0);
    forall a, b ensures SingleEnd(fs', a, b) { assert SingleEnd(fs, a, b); }
  }

  /** A new pipe with one end of each kind. */
  lemma PipeBorn(fs: seq<File>, ps: seq<Pipe>, r: nat, w: nat, q: nat, read: File, write: File, p: Pipe)
    requires PipesOk(fs, ps) && r < |fs| && w < |fs| && r != w && fs[r].refs == 0 && fs[w].refs == 0 && q < PIPES
             && !ps[q].live
    requires EndOf(read, PipeRead, q) && EndOf(write, PipeWrite, q) && read.canRead && write.canWrite
    requires p.live && p.readers == 1 && p.writers == 1 && RingOk(p)
    ensures PipesOk(fs[r := read][w := write], ps[q := p])
  {
    var fs' := fs[r := read][w := write];
    assert EndOf(fs'[r], PipeRead, q) && EndOf(fs'[w], PipeWrite, q);
    forall k, s: nat | (k == PipeRead || k == PipeWrite) && s != q ensures HasEnd(fs', k, s) <==> HasEnd(fs, k, s) {
      if g :| 0 <= g < |fs| && EndOf(fs[g], k, s) { assert EndOf(fs'[g], k, s); }
      if g :| 0 <= g < |fs| && EndOf(fs'[g], k, s) { assert EndOf(fs[g], k, s); }
    }
    assert PipeOk(fs, ps[q], q);
    forall a, b ensures SingleEnd(fs', a, b) { assert SingleEnd(fs, a, b); }
  }

  // ---------------------------------------------------------------- opening a path

  datatype Flags = Flags(read: bool, write: bool, create: bool, trunc: bool, append: bool, directory: bool,
                         unknown: bool)

  /** What the file system says: the path is not empty, exists, could be created, is a directory, could be cut to
      length zero, and fits the path buffer of a file object. */
  datatype Path = Path(named: bool, found: bool, created: bool, isDir: bool, cut: bool, fits: bool)

  /** A known combination: what changes a file needs the right to write, and a directory is only read. */
  predicate Sensible(f: Flags) {
    && !f.unknown && (f.read || f.write)
    && (f.create || f.trunc || f.append ==> f.write)
    && (f.directory ==> f.read && !f.write)
  }

  predicate Granted(f: Flags, p: Path) {
    && p.named && p.fits && (p.found || (f.create && p.created)) && p.isDir == f.directory
    && (f.trunc ==> p.cut)
  }

  // ---------------------------------------------------------------- the table

  class FdTable {
    const entries: array<Descriptor>
    const files: array<File>
    const pipes: array<Pipe>

    ghost predicate Valid()
      reads this, entries, files, pipes
    {
      entries.Length == PROCESSES * PER_PROCESS && files.Length == FILES && pipes.Length == PIPES
          && Ok(entries[..], files[..], pipes[..])
    }

    static predicate ValidPid(pid: int) { 0 <= pid < PROCESSES }
    static predicate ValidFd(fd: int) { 0 <= fd < PER_PROCESS }

    static function Slot(pid: int, fd: int): (i: nat)
      requires ValidPid(pid) && ValidFd(fd)
      ensures i < PROCESSES * PER_PROCESS
    {
      PER_PROCESS * pid + fd
    }

    /** The entries of a process. */
    static ghost function Owned(pid: int): set<int> {
      set i | 0 <= i < PROCESSES * PER_PROCESS && i / PER_PROCESS == pid
    }

    /** The place of a descriptor in the table, if there is one. */
    static ghost function At(pid: int, fd: int): set<int> {
      if ValidPid(pid) && ValidFd(fd) then {Slot(pid, fd)} else {}
    }

    constructor ()
      ensures Valid() && fresh(entries) && fresh(files) && fresh(pipes)
      ensures forall i :: 0 <= i < entries.Length ==> !entries[i].open
      ensures forall q :: 0 <= q < pipes.Length ==> !pipes[q].live
    {
      entries := new Descriptor[PROCESSES * PER_PROCESS](_ => Descriptor(false, 0));
      files := new File[FILES](_ => File(0, Regular, 0, false, false));
      pipes := new Pipe[PIPES](_ => Pipe(false, 0, 0, 0, 0, 0, ZeroPage()));
      new;
      forall f: nat ensures Count(entries[..], f) == 0 { CountNamed(entries[..], f); }
    }

    // free_file_slot; -1 when all are in use.
    method FreeFile() returns (f: int)
      requires files.Length == FILES
      ensures -1 <= f < FILES && (f >= 0 ==> files[f].refs == 0)
              && (f == -1 ==> forall g :: 0 <= g < FILES ==> files[g].refs > 0)
    {
      for i := 0 to FILES
        invariant forall g :: 0 <= g < i ==> files[g].refs > 0
      {
        if files[i].refs == 0 { return i; }
      }
      return -1;
    }

    // The first free descriptor of a process from `from` on, other than `skip`; -1 when there is none.
    method FreeFd(pid: int, from: int, skip: int) returns (fd: int)
      requires entries.Length == PROCESSES * PER_PROCESS && ValidPid(pid) && 0 <= from
      ensures fd == -1 || (from <= fd < PER_PROCESS && fd != skip && !entries[Slot(pid, fd)].open)
      ensures forall g :: from <= g < (if fd == -1 then PER_PROCESS else fd) && g != skip ==> entries[Slot(pid, g)].open
    {
      var i := from;
      while i < PER_PROCESS
        invariant forall g :: from <= g < i && g < PER_PROCESS && g != skip ==> entries[Slot(pid, g)].open
      {
        if i != skip && !entries[Slot(pid, i)].open { return i; }
        i := i + 1;
      }
      return -1;
    }

    // Open entry `i` on a file object that was not in use.
    method Attach(i: nat, f: nat, file: File)
      requires Valid() && i < entries.Length && !entries[i].open && f < FILES && files[f].refs == 0
      requires file.refs == 1 && !IsEnd(file)
      modifies entries, files
      ensures Valid() && entries[..] == old(entries[..])[i := Descriptor(true, f)]
              && files[..] == old(files[..])[f := file]
      ensures Persists(old(entries[..]), old(files[..]), entries[..], files[..], {})
    {
      RefsStep(entries[..], files[..], i, f, file);
      PersistsAttached(entries[..], files[..], i, f, file);
      PipesSame(files[..], pipes[..], f, file);
      ghost var es, fs := entries[..], files[..];
      files[f] := file;
      entries[i] := Descriptor(true, f);
      assert entries[..] == es[i := Descriptor(true, f)] && files[..] == fs[f := file];
    }

    // Open entry `i` on a file object in use.
    method Share(i: nat, f: nat)
      requires Valid() && i < entries.Length && !entries[i].open && f < FILES && files[f].refs > 0
      modifies entries, files
      ensures Valid() && entries[..] == old(entries[..])[i := Descriptor(true, f)]
      ensures files[..] == old(files[..])[f := old(files[f]).(refs := old(files[f].refs) + 1)]
      ensures Persists(old(entries[..]), old(files[..]), entries[..], files[..], {})
    {
      var file := files[f].(refs := files[f].refs + 1);
      PersistsAttached(entries[..], files[..], i, f, file);
      RefsStep(entries[..], files[..], i, f, file);
      PipesSame(files[..], pipes[..], f, file);
      ghost var es, fs := entries[..], files[..];
      files[f] := file;
      entries[i] := Descriptor(true, f);
      assert entries[..] == es[i := Descriptor(true, f)] && files[..] == fs[f := file];
    }

    /** fd_open; `path` is what the file system answers about the path. */
    method Open(pid: int, flags: Flags, path: Path) returns (fd: int)
      requires Valid()
      modifies entries, files
      ensures Persists(old(entries[..]), old(files[..]), entries[..], files[..], {})
      ensures Valid()
      ensures fd >= 0 <==> ValidPid(pid) && Sensible(flags) && Granted(flags, path) && !old(Full(pid))
      ensures fd >= 0 ==>
                ValidFd(fd) && NewFile(pid, fd,
                                       File(1, if path.isDir then Directory else Regular, 0, flags.read, flags.write))
      ensures fd < 0 ==> fd == -1 && Same()
    {
      if !ValidPid(pid) || !path.named || flags.unknown || !(flags.read || flags.write) { return -1; }
      if (flags.trunc || flags.append || flags.create) && !flags.write { return -1; }
      if flags.directory && (flags.write || flags.create || flags.trunc || flags.append) { return -1; }
      if !path.found && (!flags.create || !path.created) { return -1; }
      if path.isDir != flags.directory { return -1; }
      if flags.trunc && !path.cut { return -1; }
      if !path.fits { return -1; }
      fd := NewDescriptor(pid, File(1, if path.isDir then Directory else Regular, 0, flags.read, flags.write));
    }

    /** fd_create_custom; the kinds it serves are not pipe ends, and the descriptor may always be read and written. */
    method CreateCustom(pid: int, code: int, handle: nat) returns (fd: int)
      requires Valid()
      modifies entries, files
      ensures Persists(old(entries[..]), old(files[..]), entries[..], files[..], {})
      ensures Valid()
      ensures fd >= 0 <==> ValidPid(pid) && !old(Full(pid))
      ensures fd >= 0 ==> ValidFd(fd) && NewFile(pid, fd, File(1, Other(code, handle), 0, true, true))
      ensures fd < 0 ==> fd == -1 && Same()
    {
      if !ValidPid(pid) { return -1; }
      fd := NewDescriptor(pid, File(1, Other(code, handle), 0, true, true));
    }

    /** fd_bind_pty. */
    method BindPty(pid: int, handle: nat, canRead: bool, canWrite: bool) returns (fd: int)
      requires Valid()
      modifies entries, files
      ensures Persists(old(entries[..]), old(files[..]), entries[..], files[..], {})
      ensures Valid()
      ensures fd >= 0 <==> ValidPid(pid) && (canRead || canWrite) && !old(Full(pid))
      ensures fd >= 0 ==> ValidFd(fd) && NewFile(pid, fd, File(1, Pty, handle, canRead, canWrite))
      ensures fd < 0 ==> fd == -1 && Same()
    {
      if !ValidPid(pid) || !(canRead || canWrite) { return -1; }
      fd := NewDescriptor(pid, File(1, Pty, handle, canRead, canWrite));
    }

    /** No file object or no descriptor of the process is free. */
    ghost predicate Full(pid: int)
      reads entries, files
      requires entries.Length == PROCESSES * PER_PROCESS && files.Length == FILES && ValidPid(pid)
    {
      (forall f :: 0 <= f < FILES ==> files[f].refs > 0)
          || (forall fd :: 0 <= fd < PER_PROCESS ==> entries[Slot(pid, fd)].open)
    }

    twostate predicate Same()
      reads entries, files
    {
      entries[..] == old(entries[..]) && files[..] == old(files[..])
    }

    /** A descriptor that was free names a file object that was free. */
    twostate predicate NewFile(pid: int, fd: int, file: File)
      requires ValidPid(pid) && ValidFd(fd) && entries.Length == PROCESSES * PER_PROCESS && files.Length == FILES
      reads entries, files
    {
      var i := Slot(pid, fd);
      && !old(entries[i].open)
      && exists f :: (&& 0 <= f < FILES && old(files[f].refs) == 0
                      && entries[..] == old(entries[..])[i := Descriptor(true, f)]
                      && files[..] == old(files[..])[f := file])
    }

    // Find a free file object and a free descriptor and connect them.
    method NewDescriptor(pid: int, file: File) returns (fd: int)
      requires Valid() && ValidPid(pid) && file.refs == 1 && !IsEnd(file)
      modifies entries, files
      ensures Persists(old(entries[..]), old(files[..]), entries[..], files[..], {})
      ensures Valid() && -1 <= fd < PER_PROCESS && (fd >= 0 <==> !old(Full(pid)))
      ensures fd >= 0 ==> NewFile(pid, fd, file)
      ensures fd < 0 ==> Same()
    {
      var f := FreeFile();
      if f < 0 { return -1; }
      fd := FreeFd(pid, 0, -1);
      if fd < 0 { return; }
      Attach(Slot(pid, fd), f, file);
    }

    /** The entries after descriptors 0, 1 and 2 of a process were opened on one file object. */
    static function Stdio(es: seq<Descriptor>, pid: int, f: nat): seq<Descriptor>
      requires |es| == PROCESSES * PER_PROCESS && ValidPid(pid)
    {
      es[Slot(pid, 0) := Descriptor(true, f)][Slot(pid, 1) := Descriptor(true, f)][Slot(pid, 2) := Descriptor(true, f)]
    }

    /** fd_bind_pty_stdio: descriptors 0, 1 and 2 share one file object. */
    method BindPtyStdio(pid: int, handle: nat) returns (code: int)
      requires Valid()
      modifies entries, files
      ensures Persists(old(entries[..]), old(files[..]), entries[..], files[..], {})
      ensures Valid() && (code == 0 || code == -1)
      ensures code == 0 <==> && ValidPid(pid) && (exists f :: 0 <= f < FILES && old(files[f].refs) == 0)
                             && forall fd :: 0 <= fd < 3 ==> !old(entries[Slot(pid, fd)].open)
      ensures code == 0 ==>
                exists f :: (&& 0 <= f < FILES && old(files[f].refs) == 0
                             && files[..] == old(files[..])[f := File(3, Pty, handle, true, true)]
                             && entries[..] == Stdio(old(entries[..]), pid, f))
      ensures code == -1 ==> Same()
    {
      if !ValidPid(pid) || entries[Slot(pid, 0)].open || entries[Slot(pid, 1)].open || entries[Slot(pid, 2)].open {
        return -1;
      }
      var f := FreeFile();
      if f < 0 { return -1; }
      Attach(Slot(pid, 0), f, File(1, Pty, handle, true, true));
      Share(Slot(pid, 1), f);
      Share(Slot(pid, 2), f);
      return 0;
    }

    // entry_for and file_for: the file object behind a descriptor; -1 when there is none.
    method FileOf(pid: int, fd: int) returns (f: int)
      requires Valid()
      ensures f == -1 <==> !IsOpen(pid, fd)
      ensures f != -1 ==> 0 <= f < FILES && entries[Slot(pid, fd)].file == f && files[f].refs > 0
    {
      if !ValidPid(pid) || !ValidFd(fd) || !entries[Slot(pid, fd)].open { return -1; }
      f := entries[Slot(pid, fd)].file;
      CountNamed(entries[..], f);
      assert Names(entries[..][Slot(pid, fd)], f);
    }

    ghost predicate IsOpen(pid: int, fd: int)
      reads entries
      requires entries.Length == PROCESSES * PER_PROCESS
    {
      ValidPid(pid) && ValidFd(fd) && entries[Slot(pid, fd)].open
    }

    /** A descriptor that was free shares the file object of another. */
    twostate predicate Shared(i: nat, f: nat)
      requires entries.Length == PROCESSES * PER_PROCESS && files.Length == FILES && i < entries.Length && f < FILES
      reads entries, files
    {
      && entries[..] == old(entries[..])[i := Descriptor(true, f)]
      && files[..] == old(files[..])[f := old(files[f]).(refs := old(files[f].refs) + 1)]
    }

    /** fd_dup_min: the lowest free descriptor from `least` on shares the file object. */
    method DupMin(pid: int, fd: int, least: int) returns (copy: int)
      requires Valid()
      modifies entries, files
      ensures Persists(old(entries[..]), old(files[..]), entries[..], files[..], {})
      ensures Valid()
      ensures copy >= 0 ==>
                old(IsOpen(pid, fd)) && least <= copy < PER_PROCESS && !old(entries[Slot(pid, copy)].open)
                && Shared(Slot(pid, copy), old(entries[Slot(pid, fd)].file))
      ensures copy >= 0 ==> forall g :: 0 <= least <= g < copy ==> old(entries[Slot(pid, g)].open)
      ensures copy < 0 ==> copy == -1 && Same()
      ensures copy < 0 ==>
                !IsOpen(pid, fd) || !ValidFd(least)
                || forall g :: least <= g < PER_PROCESS ==> entries[Slot(pid, g)].open
    {
      var f := FileOf(pid, fd);
      if f == -1 || least < 0 || least >= PER_PROCESS { return -1; }
      copy := FreeFd(pid, least, -1);
      if copy < 0 { return; }
      Share(Slot(pid, copy), f);
    }

    /** fd_bind_file_id: a file object is shared by number. */
    method BindFileId(pid: int, f: nat) returns (fd: int)
      requires Valid()
      modifies entries, files
      ensures Persists(old(entries[..]), old(files[..]), entries[..], files[..], {})
      ensures Valid()
      ensures fd >= 0 <==> && ValidPid(pid) && f < FILES && old(files[f].refs) > 0
                           && exists g :: 0 <= g < PER_PROCESS && !old(entries[Slot(pid, g)].open)
      ensures fd >= 0 ==> ValidFd(fd) && !old(entries[Slot(pid, fd)].open) && Shared(Slot(pid, fd), f)
      ensures fd < 0 ==> fd == -1 && Same()
    {
      if !ValidPid(pid) || f >= FILES || files[f].refs == 0 { return -1; }
      fd := FreeFd(pid, 0, -1);
      if fd < 0 { return; }
      Share(Slot(pid, fd), f);
    }

    // Close entry `i`, which names file object `f`.
    method Detach(i: nat, f: nat)
      requires Valid() && i < entries.Length && Names(entries[i], f) && f < FILES && files[f].refs > 0
      modifies entries, files, pipes
      ensures Persists(old(entries[..]), old(files[..]), entries[..], files[..], {i})
      ensures Valid() && entries[..] == old(entries[..])[i := old(entries[i]).(open := false)]
      ensures files[..] == old(files[..])[f := old(files[f]).(refs := old(files[f].refs) - 1)]
      ensures pipes[..] == if old(files[f].refs) == 1 && IsEnd(old(files[f]))
                           then
                             var q := old(files[f].pipeId);
                             old(pipes[..])[q := EndDropped(old(pipes[..])[q], old(files[f].kind))]
                           else old(pipes[..])
      ensures Undisturbed(old(pipes[..]), pipes[..])
    {
      ghost var es, fs, ps := entries[..], files[..], pipes[..];
      var file := files[f].(refs := files[f].refs - 1);
      RefsStep(es, fs, i, f, file);
      PersistsDetached(es, fs, i, f, file);
      files[f] := file;
      if file.refs == 0 && IsEnd(file) {
        PipeEndGone(fs, ps, f, file);
        var p := pipes[file.pipeId];
        if file.kind == PipeRead && p.readers > 0 { p := p.(readers := p.readers - 1); }
        if file.kind == PipeWrite && p.writers > 0 { p := p.(writers := p.writers - 1); }
        if p.readers == 0 && p.writers == 0 { p := p.(live := false); }
        SameBytes(pipes[file.pipeId], p);
        pipes[file.pipeId] := p;
        assert pipes[..] == ps[file.pipeId := p];
      } else {
        PipesSame(fs, ps, f, file);
      }
      entries[i] := entries[i].(open := false);
      assert entries[..] == es[i := es[i].(open := false)] && files[..] == fs[f := file];
    }

    /** fd_close. */
    method Close(pid: int, fd: int) returns (code: int)
      requires Valid()
      modifies entries, files, pipes
      ensures Persists(old(entries[..]), old(files[..]), entries[..], files[..], At(pid, fd))
      ensures Valid() && code == if old(IsOpen(pid, fd)) then 0 else -1
      ensures code == 0 ==>
                entries[..] == old(entries[..])[Slot(pid, fd) := old(entries[Slot(pid, fd)]).(open := false)]
      ensures code == -1 ==> Same() && pipes[..] == old(pipes[..])
      ensures Undisturbed(old(pipes[..]), pipes[..])
    {
      var f := FileOf(pid, fd);
      if f == -1 { return -1; }
      Detach(Slot(pid, fd), f);
      return 0;
    }

    /** fd_close_owner: all descriptors of the process are closed, those of others are not touched. */
    method CloseOwner(pid: int)
      requires Valid()
      modifies entries, files, pipes
      ensures Persists(old(entries[..]), old(files[..]), entries[..], files[..], Owned(pid))
      ensures Valid()
      ensures ValidPid(pid) ==> forall fd :: 0 <= fd < PER_PROCESS ==> !entries[Slot(pid, fd)].open
      ensures forall i :: 0 <= i < entries.Length && i / PER_PROCESS != pid ==> entries[i] == old(entries[i])
      ensures Undisturbed(old(pipes[..]), pipes[..])
    {
      ghost var ps, es, fs := pipes[..], entries[..], files[..];
      NothingMoved(es, fs, Owned(pid));
      if !ValidPid(pid) { return; }
      for fd := 0 to PER_PROCESS
        invariant Undisturbed(ps, pipes[..]) && Persists(es, fs, entries[..], files[..], Owned(pid))
        invariant Valid() && forall g :: 0 <= g < fd ==> !entries[Slot(pid, g)].open
        invariant forall i :: 0 <= i < entries.Length && i / PER_PROCESS != pid ==> entries[i] == old(entries[i])
      {
        ghost var es1, fs1 := entries[..], files[..];
        if entries[Slot(pid, fd)].open {
          var _ := Close(pid, fd);
          PersistsOn(es, fs, es1, fs1, entries[..], files[..], Owned(pid), {Slot(pid, fd)});
          assert Owned(pid) + {Slot(pid, fd)} == Owned(pid);
        }
      }
    }

    /** Closing every process frees every file object and every pipe. */
    method CloseAll()
      requires Valid()
      modifies entries, files, pipes
      ensures Valid() && forall i :: 0 <= i < entries.Length ==> !entries[i].open
      ensures (forall f :: 0 <= f < FILES ==> files[f].refs == 0) && (forall q :: 0 <= q < PIPES ==> !pipes[q].live)
    {
      for pid := 0 to PROCESSES
        invariant Valid() && forall i :: 0 <= i < PER_PROCESS * pid ==> !entries[i].open
      {
        ghost var es := entries[..];
        CloseOwner(pid);
        forall i | 0 <= i < PER_PROCESS * (pid + 1) ensures !entries[i].open {
          if i < PER_PROCESS * pid {
            assert entries[i] == es[i];
          } else {
            assert i == Slot(pid, i - PER_PROCESS * pid);
          }
        }
      }
      AllClosed(entries[..], files[..], pipes[..]);
    }

    /** fd_dup2: `target` is closed if it is open and then shares the file object of `source`. */
    method Dup2(pid: int, source: int, target: int) returns (code: int)
      requires Valid()
      modifies entries, files, pipes
      ensures Persists(old(entries[..]), old(files[..]), entries[..], files[..], At(pid, target))
      ensures Valid() && code == if old(IsOpen(pid, source)) && ValidFd(target) then target else -1
      ensures code == -1 || source == target ==> Same() && pipes[..] == old(pipes[..])
      ensures code >= 0 && source != target ==>
                entries[..] ==
                old(entries[..])[Slot(pid, target) := Descriptor(true, old(entries[Slot(pid, source)].file))]
      ensures Undisturbed(old(pipes[..]), pipes[..])
    {
      var f := FileOf(pid, source);
      if f == -1 || !ValidFd(target) { return -1; }
      if source == target { return target; }
      if entries[Slot(pid, target)].open {
        var closed := Close(pid, target);
        if closed != 0 { return -1; }
      }
      var g := FileOf(pid, source);
      Share(Slot(pid, target), g);
      return target;
    }

    /** fd_inherit: the child gets every descriptor of the parent except terminals, and none it had before. */
    method Inherit(parent: int, child: int) returns (code: int)
      requires Valid()
      modifies entries, files
      ensures Persists(old(entries[..]), old(files[..]), entries[..], files[..], {})
      ensures Valid() && (code == 0 || code == -1)
      ensures code == 0 <==> && ValidPid(parent) && ValidPid(child) && parent != child
                             && forall fd :: 0 <= fd < PER_PROCESS ==> !old(entries[Slot(child, fd)].open)
      ensures code == 0 ==> forall fd :: 0 <= fd < PER_PROCESS ==>
                var was := old(entries[Slot(parent, fd)]);
                && entries[Slot(parent, fd)] == was
                && (if was.open && old(files[..])[was.file].kind != Pty then entries[Slot(child, fd)] == was
                    else !entries[Slot(child, fd)].open)
      ensures forall i :: 0 <= i < entries.Length && i / PER_PROCESS != child ==> entries[i] == old(entries[i])
      ensures code == -1 ==> Same()
    {
      if !ValidPid(parent) || !ValidPid(child) || parent == child { return -1; }
      for fd := 0 to PER_PROCESS
        invariant forall g :: 0 <= g < fd ==> !entries[Slot(child, g)].open
      {
        if entries[Slot(child, fd)].open { return -1; }
      }
      ghost var es, fs := entries[..], files[..];
      NothingMoved(es, fs, {});
      for fd := 0 to PER_PROCESS
        invariant Persists(es, fs, entries[..], files[..], {})
        invariant Valid() && forall i :: 0 <= i < entries.Length && i / PER_PROCESS != child ==> entries[i] == es[i]
        invariant forall f :: 0 <= f < FILES ==> files[f].kind == fs[f].kind
        invariant forall g :: fd <= g < PER_PROCESS ==> !entries[Slot(child, g)].open
        invariant forall g :: 0 <= g < fd ==> Given(es[Slot(parent, g)], fs, entries[Slot(child, g)])
      {
        assert entries[Slot(parent, fd)] == es[Slot(parent, fd)];
        var f := FileOf(parent, fd);
        if f == -1 || files[f].kind == Pty { continue; }
        ghost var es1, fs1 := entries[..], files[..];
        Share(Slot(child, fd), f);
        PersistsOn(es, fs, es1, fs1, entries[..], files[..], {}, {});
      }
      return 0;
    }

    static ghost predicate Given(was: Descriptor, fs: seq<File>, now: Descriptor) {
      if was.open && was.file < |fs| && fs[was.file].kind != Pty then now == was else !now.open
    }

    // The first pipe that is not in use; -1 when all are.
    method FreePipe() returns (q: int)
      requires pipes.Length == PIPES
      ensures -1 <= q < PIPES && (q >= 0 ==> !pipes[q].live)
              && (q == -1 ==> forall r :: 0 <= r < PIPES ==> pipes[r].live)
    {
      for i := 0 to PIPES
        invariant forall r :: 0 <= r < i ==> pipes[r].live
      {
        if !pipes[i].live { return i; }
      }
      return -1;
    }

    /** Entry `i` names file object `r` and entry `j` names `w`, the ends of pipe `q`; nothing else has changed. */
    twostate predicate Connected(i: nat, j: nat, r: nat, w: nat, q: nat)
      reads entries, files
      requires i < entries.Length && j < entries.Length && r < files.Length && w < files.Length
    {
      && entries[..] == old(entries[..])[i := Descriptor(true, r)][j := Descriptor(true, w)]
      && files[..] == old(files[..])[r := File(1, PipeRead, q, true, false)][w := File(1, PipeWrite, q, false, true)]
    }

    /** Pipe `q` is new and empty; the other pipes are as before. */
    twostate predicate NewPipe(q: nat)
      reads pipes
      requires q < pipes.Length
    {
      !old(pipes[q].live) && pipes[..] == old(pipes[..])[q := Pipe(true, 1, 1, 0, 0, 0, old(pipes[q].data))]
    }

    // Connect two free descriptors to the ends of a free pipe.
    method Connect(i: nat, j: nat, r: nat, w: nat, q: nat)
      requires Valid() && i < entries.Length && j < entries.Length && i != j && !entries[i].open && !entries[j].open
      requires r < FILES && w < FILES && r != w && files[r].refs == 0 && files[w].refs == 0 && q < PIPES
               && !pipes[q].live
      modifies entries, files, pipes
      ensures Persists(old(entries[..]), old(files[..]), entries[..], files[..], {})
      ensures Valid() && Connected(i, j, r, w, q) && NewPipe(q)
    {
      ghost var es, fs, ps := entries[..], files[..], pipes[..];
      var read, write, p := File(1, PipeRead, q, true, false), File(1, PipeWrite, q, false, true),
          Pipe(true, 1, 1, 0, 0, 0, pipes[q].data);
      RefsStep(es, fs, i, r, read);
      RefsStep(es[i := Descriptor(true, r)], fs[r := read], j, w, write);
      PipeBorn(fs, ps, r, w, q, read, write, p);
      PersistsAttached(es, fs, i, r, read);
      PersistsAttached(es[i := Descriptor(true, r)], fs[r := read], j, w, write);
      PersistsOn(es, fs, es[i := Descriptor(true, r)], fs[r := read],
                 es[i := Descriptor(true, r)][j := Descriptor(true, w)], fs[r := read][w := write], {}, {});
      pipes[q], files[r], files[w] := p, read, write;
      entries[i], entries[j] := Descriptor(true, r), Descriptor(true, w);
      assert entries[..] == es[i := Descriptor(true, r)][j := Descriptor(true, w)];
      assert files[..] == fs[r := read][w := write] && pipes[..] == ps[q := p];
    }

    // Another free file object.
    method FreeFileBut(r: int) returns (w: int)
      requires files.Length == FILES && 0 <= r < FILES
      ensures -1 <= w < FILES && (w >= 0 ==> w != r && files[w].refs == 0)
      ensures w == -1 ==> forall g :: 0 <= g < FILES && g != r ==> files[g].refs > 0
    {
      for i := 0 to FILES
        invariant forall g :: 0 <= g < i && g != r ==> files[g].refs > 0
      {
        if i != r && files[i].refs == 0 { return i; }
      }
      return -1;
    }

    /** Two descriptors of the process, two file objects and a pipe are free. */
    ghost predicate RoomForPipe(pid: int)
      reads entries, files, pipes
      requires entries.Length == PROCESSES * PER_PROCESS && files.Length == FILES && pipes.Length == PIPES
               && ValidPid(pid)
    {
      && (exists a, b :: 0 <= a < b < PER_PROCESS && !entries[Slot(pid, a)].open && !entries[Slot(pid, b)].open)
      && (exists f, g :: 0 <= f < g < FILES && files[f].refs == 0 && files[g].refs == 0)
      && (exists q :: 0 <= q < PIPES && !pipes[q].live)
    }

    /** fd_pipe_create: two new descriptors name the ends of a new empty pipe; on failure nothing has changed. */
    method PipeCreate(pid: int) returns (code: int, readFd: int, writeFd: int)
      requires Valid()
      modifies entries, files, pipes
      ensures Persists(old(entries[..]), old(files[..]), entries[..], files[..], {})
      ensures Valid() && (code == 0 || code == -1)
      ensures code == 0 <==> ValidPid(pid) && old(RoomForPipe(pid))
      ensures code == 0 ==> ValidPid(pid) && ValidFd(readFd) && ValidFd(writeFd) && readFd != writeFd
      ensures code == 0 ==>
                && !old(entries[Slot(pid, readFd)].open) && !old(entries[Slot(pid, writeFd)].open)
                && exists r, w, q :: (&& 0 <= r < FILES && 0 <= w < FILES && 0 <= q < PIPES && NewPipe(q)
                                      && Connected(Slot(pid, readFd), Slot(pid, writeFd), r, w, q))
      ensures code == -1 ==> Same() && pipes[..] == old(pipes[..])
    {
      code, readFd, writeFd := -1, -1, -1;
      if !ValidPid(pid) { return; }
      readFd := FreeFd(pid, 0, -1);
      writeFd := FreeFd(pid, 0, readFd);
      var r := FreeFile();
      if readFd < 0 || writeFd < 0 || r < 0 { return; }
      var w := FreeFileBut(r);
      if w < 0 { return; }
      var q := FreePipe();
      if q < 0 { return; }
      ghost var es, fs, ps := entries[..], files[..], pipes[..];
      Connect(Slot(pid, readFd), Slot(pid, writeFd), r, w, q);
      assert es == old(entries[..]) && fs == old(files[..]) && ps == old(pipes[..]) && ps[q] == old(pipes[q]);
      assert NewPipe(q) && Connected(Slot(pid, readFd), Slot(pid, writeFd), r, w, q);
      code := 0;
    }

    // The copy loop of the pipe branch of fd_read.
    static method PopAll(p: Pipe, out: array<Byte>, count: nat) returns (r: Pipe)
      requires RingOk(p) && count <= p.used && count <= out.Length
      modifies out
      ensures RingOk(r) && SameEnds(r, p) && Contents(r) == Contents(p)[count..]
      ensures out[..count] == Contents(p)[..count] && out[count..] == old(out[count..])
    {
      r := p;
      for i := 0 to count
        invariant RingOk(r) && r.used == p.used - i && Contents(r) == Contents(p)[i..] && SameEnds(r, p)
        invariant out[..i] == Contents(p)[..i] && out[i..] == old(out[i..])
      {
        PopOne(r);
        out[i] := r.data[r.tail];
        r := Popped(r);
      }
    }

    // The copy loop of the pipe branch of fd_write.
    static method PushAll(p: Pipe, data: seq<Byte>, count: nat) returns (r: Pipe)
      requires RingOk(p) && p.used + count <= PIPE_BUFFER && count <= |data|
      ensures RingOk(r) && SameEnds(r, p) && Contents(r) == Contents(p) + data[..count]
    {
      r := p;
      for i := 0 to count
        invariant RingOk(r) && r.used == p.used + i && Contents(r) == Contents(p) + data[..i] && SameEnds(r, p)
      {
        PushOne(r, data[i]);
        r := Pushed(r, data[i]);
        assert data[..i + 1] == data[..i] + [data[i]];
      }
    }

    // Replace a pipe by one with the same ends.
    method SetPipe(q: nat, p: Pipe)
      requires Valid() && q < PIPES && SameEnds(p, pipes[q]) && RingOk(p)
      modifies pipes
      ensures Valid() && pipes[..] == old(pipes[..])[q := p]
    {
      ghost var ps := pipes[..];
      PipeReplaced(files[..], ps, q, p);
      pipes[q] := p;
      assert pipes[..] == ps[q := p];
    }

    ghost function FileAt(pid: int, fd: int): File
      reads entries, files
      requires entries.Length == PROCESSES * PER_PROCESS && IsOpen(pid, fd) && files.Length == FILES
    {
      if entries[Slot(pid, fd)].file < FILES then files[entries[Slot(pid, fd)].file]
      else File(0, Regular, 0, false, false)
    }

    /** The pipe branch of fd_read: the bytes come out in order, as many as are there and fit. */
    method ReadPipe(pid: int, fd: int, out: array<Byte>, max: nat) returns (code: int)
      requires Valid() && max <= out.Length && IsOpen(pid, fd) && FileAt(pid, fd).kind == PipeRead
      modifies pipes, out
      ensures Valid() && Ends() && FileAt(pid, fd).pipeId < PIPES
      ensures var q := FileAt(pid, fd).pipeId;
              if max == 0 || max > IO_MAX then code == -1 && pipes[..] == old(pipes[..]) && out[..] == old(out[..])
              else
                var was := Contents(old(pipes[..])[q]);
                && code == Smaller(max, |was|) && out[..code] == was[..code] && out[code..] == old(out[code..])
                && pipes[..] == old(pipes[..])[q := pipes[q]] && Contents(pipes[q]) == was[code..]
    {
      var f := FileOf(pid, fd);
      EndPresent(files[..], pipes[..], f);
      if !files[f].canRead || max == 0 || max > IO_MAX { return -1; }
      var q := files[f].pipeId;
      code := Smaller(max, pipes[q].used);
      var p := PopAll(pipes[q], out, code);
      SetPipe(q, p);
    }

    /** The pipe branch of fd_write: as many bytes as fit are appended; -2 when nobody can read them. */
    method WritePipe(pid: int, fd: int, data: seq<Byte>) returns (code: int)
      requires Valid() && IsOpen(pid, fd) && FileAt(pid, fd).kind == PipeWrite
      modifies pipes
      ensures Valid() && Ends() && FileAt(pid, fd).pipeId < PIPES
      ensures var q := FileAt(pid, fd).pipeId;
              if |data| > IO_MAX then code == -1 && pipes[..] == old(pipes[..])
              else if !OpenEnd(entries[..], files[..], PipeRead, q) then code == -2 && pipes[..] == old(pipes[..])
              else
                var was := Contents(old(pipes[..])[q]);
                && code == Smaller(|data|, PIPE_BUFFER - |was|)
                && pipes[..] == old(pipes[..])[q := pipes[q]] && Contents(pipes[q]) == was + data[..code]
    {
      var f := FileOf(pid, fd);
      EndPresent(files[..], pipes[..], f);
      if !files[f].canWrite || |data| > IO_MAX { return -1; }
      var q := files[f].pipeId;
      PipeLifetime(entries[..], files[..], pipes[..], q);
      if pipes[q].readers == 0 { return -2; }
      code := Smaller(|data|, PIPE_BUFFER - pipes[q].used);
      var p := PushAll(pipes[q], data, code);
      SetPipe(q, p);
    }

    // What pipe traffic leaves alone.
    twostate predicate Ends()
      reads entries, files
    {
      entries[..] == old(entries[..]) && files[..] == old(files[..])
    }

    /** The pipe branch of fd_poll: readable exactly if a byte is waiting, writable exactly if there is room and
        somebody can read, hung up exactly if no descriptor anywhere names the other end. */
    method PollPipe(pid: int, fd: int) returns (ready: Ready)
      requires Valid() && IsOpen(pid, fd) && FileAt(pid, fd).kind in {PipeRead, PipeWrite}
      ensures FileAt(pid, fd).pipeId < PIPES
      ensures var kind, q := FileAt(pid, fd).kind, FileAt(pid, fd).pipeId;
              && (ready.read <==> kind == PipeRead && Contents(pipes[q]) != [])
              && (ready.write <==>
              kind == PipeWrite && |Contents(pipes[q])| < PIPE_BUFFER && OpenEnd(entries[..], files[..], PipeRead, q))
              && (ready.hangup <==>
              !OpenEnd(entries[..], files[..], if kind == PipeRead then PipeWrite else PipeRead, q))
    {
      var f := FileOf(pid, fd);
      var file := files[f];
      EndPresent(files[..], pipes[..], f);
      PipeLifetime(entries[..], files[..], pipes[..], file.pipeId);
      var p := pipes[file.pipeId];
      ready := Ready(file.kind == PipeRead && p.used > 0,
                     file.kind == PipeWrite && p.used < PIPE_BUFFER && p.readers > 0,
                     (file.kind == PipeRead && p.writers == 0) || (file.kind == PipeWrite && p.readers == 0));
    }

    /** The read end is readable exactly if the next read returns data. */
    method PollThenRead(pid: int, fd: int, out: array<Byte>, max: nat) returns (ready: Ready, code: int)
      requires Valid() && max <= out.Length && IsOpen(pid, fd) && FileAt(pid, fd).kind == PipeRead
      modifies pipes, out
      ensures Valid() && (0 < max <= IO_MAX ==> (ready.read <==> code > 0) && code >= 0)
    {
      ready := PollPipe(pid, fd);
      code := ReadPipe(pid, fd, out, max);
    }

    /** The write end is writable exactly if the next write that is not empty is accepted at least in part. */
    method PollThenWrite(pid: int, fd: int, data: seq<Byte>) returns (ready: Ready, code: int)
      requires Valid() && IsOpen(pid, fd) && FileAt(pid, fd).kind == PipeWrite
      modifies pipes
      ensures Valid() && (0 < |data| <= IO_MAX ==> (ready.write <==> code > 0) && (ready.hangup <==> code == -2))
    {
      ready := PollPipe(pid, fd);
      code := WritePipe(pid, fd, data);
    }

    /** The pipe a descriptor is an end of; -1 when it is none of that kind. */
    ghost function PipeOf(pid: int, fd: int, kind: Kind): int
      reads entries, files
      requires entries.Length == PROCESSES * PER_PROCESS && files.Length == FILES
    {
      if IsOpen(pid, fd) && FileAt(pid, fd).kind == kind then FileAt(pid, fd).pipeId else -1
    }

    /** The pipe of an open pipe end is in use. */
    lemma PipeThere(pid: int, fd: int, kind: Kind)
      requires Valid() && (kind == PipeRead || kind == PipeWrite) && PipeOf(pid, fd, kind) >= 0
      ensures IsOpen(pid, fd) && entries[Slot(pid, fd)].file < FILES
      ensures FileAt(pid, fd) == files[entries[Slot(pid, fd)].file]
      ensures PipeOf(pid, fd, kind) < PIPES && pipes[PipeOf(pid, fd, kind)].live
    {
      OpenIsCounted(entries[..], files[..], Slot(pid, fd));
      EndPresent(files[..], pipes[..], entries[Slot(pid, fd)].file);
    }

    // PipeOf, for a pipe end that is in use.
    method FindPipe(pid: int, fd: int, kind: Kind) returns (q: int)
      requires Valid() && (kind == PipeRead || kind == PipeWrite)
      ensures q == PipeOf(pid, fd, kind) && -1 <= q < PIPES && (q >= 0 ==> pipes[q].live)
      ensures q >= 0 ==> IsOpen(pid, fd) && FileAt(pid, fd).kind == kind
    {
      var f := FileOf(pid, fd);
      if f == -1 || files[f].kind != kind { return -1; }
      EndPresent(files[..], pipes[..], f);
      q := files[f].pipeId;
    }

    // A request to fd_write.
    method HandleWrite(pid: int, fd: int, data: seq<Byte>) returns (s: Step)
      requires Valid()
      modifies pipes
      ensures Valid() && s.request == Write(pid, fd, data) && s.pipe == PipeOf(pid, fd, PipeWrite)
      ensures Moves(old(pipes[..]), pipes[..], s)
    {
      var q := FindPipe(pid, fd, PipeWrite);
      s := Step(Write(pid, fd, data), -1, [], q);
      if q < 0 { return; }
      var code := WritePipe(pid, fd, data);
      s := s.(code := code);
    }

    // A request to fd_read.
    method HandleRead(pid: int, fd: int, max: nat) returns (s: Step)
      requires Valid()
      modifies pipes
      ensures Valid() && s.request == Read(pid, fd, max) && s.pipe == PipeOf(pid, fd, PipeRead)
      ensures Moves(old(pipes[..]), pipes[..], s)
    {
      var q := FindPipe(pid, fd, PipeRead);
      s := Step(Read(pid, fd, max), -1, [], q);
      if q < 0 { return; }
      var out := new Byte[max](_ => 0);
      var code := ReadPipe(pid, fd, out, max);
      s := s.(code := code, bytes := if code < 0 then [] else out[..code]);
    }

    // A request to fd_pipe_create.
    method HandleCreate(pid: int) returns (s: Step)
      requires Valid()
      modifies entries, files, pipes
      ensures Valid() && s.request == Create(pid)
      ensures Moves(old(pipes[..]), pipes[..], s)
      ensures Persists(old(entries[..]), old(files[..]), entries[..], files[..], {})
    {
      var code, readFd, writeFd := PipeCreate(pid);
      s := Step(Create(pid), code, [], -1);
      if code < 0 { return; }
      var q := FindPipe(pid, readFd, PipeRead);
      s := s.(pipe := q);
    }

    /** One request of any process, and what it did to the bytes in the pipes. */
    method Handle(request: Request) returns (s: Step)
      requires Valid()
      modifies entries, files, pipes
      ensures Valid() && s.request == request && Moves(old(pipes[..]), pipes[..], s)
      ensures request.Write? ==> s.pipe == old(PipeOf(request.pid, request.fd, PipeWrite))
      ensures request.Read? ==> s.pipe == old(PipeOf(request.pid, request.fd, PipeRead))
      ensures Persists(old(entries[..]), old(files[..]), entries[..], files[..], Closing(request))
    {
      NothingMoved(entries[..], files[..], {});
      var code := 0;
      match request {
        case Create(pid) => s := HandleCreate(pid); return;
        case Write(pid, fd, data) => s := HandleWrite(pid, fd, data); return;
        case Read(pid, fd, max) => s := HandleRead(pid, fd, max); return;
        case DupMin(pid, fd, least) => code := DupMin(pid, fd, least);
        case Dup2(pid, source, target) => code := Dup2(pid, source, target);
        case Inherit(parent, child) => code := Inherit(parent, child);
        case Close(pid, fd) => code := Close(pid, fd);
        case CloseOwner(pid) => CloseOwner(pid);
        case BindFileId(pid, file) => code := BindFileId(pid, file);
        case Open(pid, flags, path) => code := Open(pid, flags, path);
        case BindPty(pid, handle, canRead, canWrite) => code := BindPty(pid, handle, canRead, canWrite);
        case BindPtyStdio(pid, handle) => code := BindPtyStdio(pid, handle);
        case CreateCustom(pid, kind, handle) => code := CreateCustom(pid, kind, handle);
      }
      s := Step(request, code, [], -1);
    }
  }

  const IO_MAX := 0x80_0000

  datatype Ready = Ready(read: bool, write: bool, hangup: bool)

  function Smaller(a: int, b: int): int { if a < b then a else b }

  // ---------------------------------------------------------------- the ring

  /** The bytes in the pipe, oldest first. */
  function Contents(p: Pipe): (s: seq<Byte>)
    ensures |s| == p.used
  {
    seq(p.used, i requires 0 <= i < p.used => p.data[(p.tail + i) % PIPE_BUFFER])
  }

  function Pushed(p: Pipe, b: Byte): Pipe
    requires p.head < PIPE_BUFFER
  {
    p.(data := p.data[p.head := b], head := (p.head + 1) % PIPE_BUFFER, used := p.used + 1)
  }

  function Popped(p: Pipe): Pipe
    requires p.used > 0
  {
    p.(tail := (p.tail + 1) % PIPE_BUFFER, used := p.used - 1)
  }

  lemma PushOne(p: Pipe, b: Byte)
    requires RingOk(p) && p.used < PIPE_BUFFER
    ensures RingOk(Pushed(p, b)) && Contents(Pushed(p, b)) == Contents(p) + [b]
  {
    var r := Pushed(p, b);
    forall i | 0 <= i < p.used ensures Contents(r)[i] == Contents(p)[i] { SlotsDiffer(p.tail, i, p.used); }
  }

  lemma SlotsDiffer(tail: nat, i: nat, used: nat)
    requires i < used < PIPE_BUFFER
    ensures (tail + i) % PIPE_BUFFER != (tail + used) % PIPE_BUFFER
  {}

  lemma PopOne(p: Pipe)
    requires RingOk(p) && p.used > 0
    ensures RingOk(Popped(p)) && Contents(p) == [p.data[p.tail]] + Contents(Popped(p))
  {
    var r := Popped(p);
    assert Contents(p)[0] == p.data[p.tail];
    forall i | 0 <= i < r.used ensures Contents(r)[i] == Contents(p)[i + 1] {
      assert ((p.tail + 1) % PIPE_BUFFER + i) % PIPE_BUFFER == (p.tail + (i + 1)) % PIPE_BUFFER;
    }
  }

  /** Dropping ends leaves the bytes in the ring. */
  lemma SameBytes(p: Pipe, r: Pipe)
    requires r.tail == p.tail && r.used == p.used && r.data == p.data
    ensures Contents(r) == Contents(p)
  {}

  /** Every pipe still in use was in use before and holds the same bytes. */
  ghost predicate Undisturbed(ps: seq<Pipe>, ps': seq<Pipe>) {
    |ps| == |ps'| && forall q :: 0 <= q < |ps| && ps'[q].live ==> ps[q].live && Contents(ps'[q]) == Contents(ps[q])
  }

  predicate SameEnds(p: Pipe, r: Pipe) { p.live == r.live && p.readers == r.readers && p.writers == r.writers }

  lemma EndPresent(fs: seq<File>, ps: seq<Pipe>, f: nat)
    requires PipesOk(fs, ps) && f < |fs| && fs[f].refs > 0 && IsEnd(fs[f])
    ensures EndOk(fs[f]) && ps[fs[f].pipeId].live && RingOk(ps[fs[f].pipeId])
  {
    assert PipeOk(fs, ps[fs[f].pipeId], fs[f].pipeId);
    assert EndOf(fs[f], fs[f].kind, fs[f].pipeId);
  }

  /** Traffic on one pipe does not disturb the table. */
  lemma PipeReplaced(fs: seq<File>, ps: seq<Pipe>, q: nat, p: Pipe)
    requires PipesOk(fs, ps) && q < PIPES && SameEnds(p, ps[q]) && RingOk(p)
    ensures PipesOk(fs, ps[q := p])
  {
    var ps' := ps[q := p];
    forall r | 0 <= r < PIPES ensures PipeOk(fs, ps'[r], r) { assert PipeOk(fs, ps[r], r); }
  }

  // ---------------------------------------------------------------- runs

  datatype Request =
    | Create(pid: int) | Write(pid: int, fd: int, data: seq<Byte>) | Read(pid: int, fd: int, max: nat)
    | DupMin(pid: int, fd: int, least: int) | Dup2(pid: int, source: int, target: int) | Inherit(parent: int,
        child: int)
    | Close(pid: int, fd: int) | CloseOwner(pid: int) | BindFileId(pid: int, file: nat)
    | Open(pid: int, flags: Flags, path: Path) | BindPty(pid: int, handle: nat, canRead: bool, canWrite: bool)
    | BindPtyStdio(pid: int, handle: nat) | CreateCustom(pid: int, code: int, handle: nat)

  /** A request with its answer: the code, the bytes a read returned and the pipe it was about (-1 when about none). */
  datatype Step = Step(request: Request, code: int, bytes: seq<Byte>, pipe: int)

  /** The entries a request may close or replace: only those its own process names. */
  ghost function Closing(r: Request): set<int> {
    match r
    case Close(pid, fd) => FdTable.At(pid, fd)
    case Dup2(pid, _, target) => FdTable.At(pid, target)
    case CloseOwner(pid) => FdTable.Owned(pid)
    case _ => {}
  }

  predicate Births(s: Step, q: nat) { s.request.Create? && s.pipe == q }

  /** The bytes of a write that pipe `q` accepted: the first `code` ones. */
  function Put(s: Step, q: nat): seq<Byte> {
    if s.request.Write? && s.pipe == q && 0 <= s.code <= |s.request.data| then s.request.data[..s.code] else []
  }

  /** The bytes that a read took from pipe `q`. */
  function Got(s: Step, q: nat): seq<Byte> { if s.request.Read? && s.pipe == q then s.bytes else [] }

  /** A new pipe is empty, and any other pipe still in use gained what was put and lost what was got. */
  ghost predicate Moves(ps: seq<Pipe>, ps': seq<Pipe>, s: Step) {
    && |ps| == |ps'|
    && forall q :: 0 <= q < |ps| && ps'[q].live ==>
         if Births(s, q) then !ps[q].live && Contents(ps'[q]) == []
         else ps[q].live && Contents(ps[q]) + Put(s, q) == Got(s, q) + Contents(ps'[q])
  }

  /** What pipe `q` accepted since it was created last. */
  function Accepted(trace: seq<Step>, q: nat): seq<Byte> {
    if trace == [] then [] else
    var s := trace[|trace| - 1];
    if Births(s, q) then [] else Accepted(trace[..|trace| - 1], q) + Put(s, q)
  }

  /** What was read from pipe `q` since it was created last. */
  function Delivered(trace: seq<Step>, q: nat): seq<Byte> {
    if trace == [] then [] else
    var s := trace[|trace| - 1];
    if Births(s, q) then [] else Delivered(trace[..|trace| - 1], q) + Got(s, q)
  }

  /** Over any run the bytes delivered by a pipe in use are a prefix of those it accepted, and it holds the rest. */
  lemma {:induction false} FirstInFirstOut(pss: seq<seq<Pipe>>, trace: seq<Step>, q: nat)
    requires |pss| == |trace| + 1 && forall i :: 0 <= i < |trace| ==> Moves(pss[i], pss[i + 1], trace[i])
    requires q < |pss[0]| && !pss[0][q].live
    ensures q < |pss[|trace|]|
    ensures pss[|trace|][q].live ==> Accepted(trace, q) == Delivered(trace, q) + Contents(pss[|trace|][q])
    decreases |trace|
  {
    if trace != [] {
      var n := |trace| - 1;
      FirstInFirstOut(pss[..n + 1], trace[..n], q);
      assert Moves(pss[n], pss[n + 1], trace[n]);
      var before, after := Contents(pss[n][q]), Contents(pss[n + 1][q]);
      var delivered := Delivered(trace[..n], q);
      assert (delivered + before) + Put(trace[n], q) == delivered + (before + Put(trace[n], q));
      assert (delivered + Got(trace[n], q)) + after == delivered + (Got(trace[n], q) + after);
    }
  }

  /** Any number of requests from any processes, starting with an empty table. */
  method Serve(requests: seq<Request>) returns (table: FdTable, trace: seq<Step>)
    ensures table.Valid() && |trace| == |requests| && forall i :: 0 <= i < |trace| ==> trace[i].request == requests[i]
    ensures forall q: nat :: q < PIPES && table.pipes[q].live ==>
              Accepted(trace, q) == Delivered(trace, q) + Contents(table.pipes[q])
  {
    table := new FdTable();
    trace := [];
    ghost var pss := [table.pipes[..]];
    for n := 0 to |requests|
      invariant table.Valid() && fresh(table.entries) && fresh(table.files) && fresh(table.pipes)
      invariant |trace| == n && |pss| == n + 1 && pss[n] == table.pipes[..] && |pss[0]| == PIPES
      invariant forall i :: 0 <= i < n ==> trace[i].request == requests[i]
      invariant forall q :: 0 <= q < PIPES ==> !pss[0][q].live
      invariant forall i :: 0 <= i < n ==> Moves(pss[i], pss[i + 1], trace[i])
    {
      var s := table.Handle(requests[n]);
      trace, pss := trace + [s], pss + [table.pipes[..]];
    }
    forall q: nat | q < PIPES && table.pipes[q].live
      ensures Accepted(trace, q) == Delivered(trace, q) + Contents(table.pipes[q])
    {
      FirstInFirstOut(pss, trace, q);
    }
  }

  lemma OneMore(before: seq<Byte>, after: seq<Byte>, was: seq<Byte>, trace: seq<Step>, s: Step, q: nat)
    requires !Births(s, q) && before + Put(s, q) == Got(s, q) + after
    requires was + Accepted(trace, q) == Delivered(trace, q) + before
    ensures was + Accepted(trace + [s], q) == Delivered(trace + [s], q) + after
  {
    assert (trace + [s])[..|trace|] == trace;
    var accepted, delivered := Accepted(trace, q), Delivered(trace, q);
    assert was + (accepted + Put(s, q)) == (was + accepted) + Put(s, q);
    assert (delivered + before) + Put(s, q) == delivered + (before + Put(s, q));
    assert (delivered + Got(s, q)) + after == delivered + (Got(s, q) + after);
  }

  /** A descriptor that its own process neither closes nor replaces stays an end of the same pipe. */
  lemma SamePipe(es: seq<Descriptor>, fs: seq<File>, es': seq<Descriptor>, fs': seq<File>, i: nat, closing: set<int>)
    requires Persists(es, fs, es', fs', closing) && i < |es| && es[i].open && i !in closing && es[i].file < |fs|
    ensures es'[i] == es[i] && es[i].file < |fs'|
    ensures fs'[es[i].file].kind == fs[es[i].file].kind && fs'[es[i].file].pipeId == fs[es[i].file].pipeId
  {
    assert Stays(es, fs, es', fs', i);
  }

  /** The trace belongs to the requests, and every step through the descriptor went to pipe `q`. */
  ghost predicate Through(trace: seq<Step>, requests: seq<Request>, pid: int, fd: int, kind: Kind, q: int) {
    |trace| <= |requests| && forall i :: 0 <= i < |trace| ==>
      trace[i].request == requests[i] && (UsedBy(trace[i], pid, fd, kind) ==> trace[i].pipe == q)
  }

  lemma OneMoreThrough(trace: seq<Step>, requests: seq<Request>, s: Step, pid: int, fd: int, kind: Kind, q: int)
    requires Through(trace, requests, pid, fd, kind, q) && |trace| < |requests| && s.request == requests[|trace|]
    requires UsedBy(s, pid, fd, kind) ==> s.pipe == q
    ensures Through(trace + [s], requests, pid, fd, kind, q)
  {}

  // One request that does not close or replace descriptor `fd` of process `pid`.
  method HandleFor(table: FdTable, request: Request, ghost pid: int, ghost fd: int, ghost kind: Kind, ghost q: int)
    returns (s: Step)
    requires table.Valid() && (kind == PipeRead || kind == PipeWrite) && table.PipeOf(pid, fd, kind) == q >= 0
    requires FdTable.Slot(pid, fd) !in Closing(request) && q < PIPES
    modifies table.entries, table.files, table.pipes
    ensures table.Valid() && s.request == request && table.PipeOf(pid, fd, kind) == q && table.pipes[q].live
    ensures UsedBy(s, pid, fd, kind) ==> s.pipe == q
    ensures !Births(s, q) && Contents(old(table.pipes[..])[q]) + Put(s, q) == Got(s, q) + Contents(table.pipes[q])
  {
    ghost var es, fs := table.entries[..], table.files[..];
    table.PipeThere(pid, fd, kind);
    s := table.Handle(request);
    SamePipe(es, fs, table.entries[..], table.files[..], FdTable.Slot(pid, fd), Closing(request));
    table.PipeThere(pid, fd, kind);
  }

  /** Any requests of any processes, none of which closes or replaces descriptor `fd` of process `pid`: it stays an end
      of the same pipe, all its reads and writes go to that pipe, and what the pipe held, followed by what it accepted,
      is what it delivered, followed by what it holds. */
  method ServeFor(table: FdTable, requests: seq<Request>, ghost pid: int, ghost fd: int, ghost kind: Kind)
    returns (trace: seq<Step>)
    requires table.Valid() && (kind == PipeRead || kind == PipeWrite) && table.PipeOf(pid, fd, kind) >= 0
    requires forall i :: 0 <= i < |requests| ==> FdTable.Slot(pid, fd) !in Closing(requests[i])
    modifies table.entries, table.files, table.pipes
    ensures table.Valid() && |trace| == |requests|
    ensures var q := old(table.PipeOf(pid, fd, kind));
            && table.PipeOf(pid, fd, kind) == q < PIPES && old(table.pipes[..])[q].live && table.pipes[q].live
            && Through(trace, requests, pid, fd, kind, q)
            && Contents(old(table.pipes[..])[q]) + Accepted(trace, q) == Delivered(trace, q) + Contents(table.pipes[q])
  {
    trace := [];
    ghost var q, was := table.PipeOf(pid, fd, kind), table.pipes[..];
    table.PipeThere(pid, fd, kind);
    for n := 0 to |requests|
      invariant table.Valid() && table.PipeOf(pid, fd, kind) == q < PIPES && table.pipes[q].live
      invariant |trace| == n && Through(trace, requests, pid, fd, kind, q)
      invariant Contents(was[q]) + Accepted(trace, q) == Delivered(trace, q) + Contents(table.pipes[q])
    {
      ghost var before := Contents(table.pipes[q]);
      var s := HandleFor(table, requests[n], pid, fd, kind, q);
      OneMore(before, Contents(table.pipes[q]), Contents(was[q]), trace, s, q);
      OneMoreThrough(trace, requests, s, pid, fd, kind, q);
      trace := trace + [s];
    }
  }

  /** The step is a read or a write through this descriptor. */
  predicate UsedBy(s: Step, pid: int, fd: int, kind: Kind) {
    || (kind == PipeRead && s.request.Read? && s.request.pid == pid && s.request.fd == fd)
    || (kind == PipeWrite && s.request.Write? && s.request.pid == pid && s.request.fd == fd)
  }

  /** Some open descriptor anywhere names an end of this kind of pipe `q`. */
  ghost predicate OpenEnd(es: seq<Descriptor>, fs: seq<File>, kind: Kind, q: nat) {
    exists i :: 0 <= i < |es| && es[i].open && es[i].file < |fs| && EndOf(fs[es[i].file], kind, q)
  }

  lemma EndIsOpen(es: seq<Descriptor>, fs: seq<File>, kind: Kind, q: nat)
    requires RefsOk(es, fs)
    ensures HasEnd(fs, kind, q) <==> OpenEnd(es, fs, kind, q)
  {
    if f :| 0 <= f < |fs| && EndOf(fs[f], kind, q) {
      CountNamed(es, f);
      var i :| 0 <= i < |es| && Names(es[i], f);
    }
  }

  /** A pipe is allocated exactly while some open descriptor anywhere names one of its ends. */
  lemma PipeLifetime(es: seq<Descriptor>, fs: seq<File>, ps: seq<Pipe>, q: nat)
    requires Ok(es, fs, ps) && q < PIPES
    ensures ps[q].live <==> OpenEnd(es, fs, PipeRead, q) || OpenEnd(es, fs, PipeWrite, q)
    ensures ps[q].readers > 0 <==> OpenEnd(es, fs, PipeRead, q)
    ensures ps[q].writers > 0 <==> OpenEnd(es, fs, PipeWrite, q)
  {
    assert PipeOk(fs, ps[q], q);
    EndIsOpen(es, fs, PipeRead, q);
    EndIsOpen(es, fs, PipeWrite, q);
  }

  /** When every descriptor is closed, every file object and every pipe is free. */
  lemma AllClosed(es: seq<Descriptor>, fs: seq<File>, ps: seq<Pipe>)
    requires Ok(es, fs, ps) && forall i :: 0 <= i < |es| ==> !es[i].open
    ensures (forall f :: 0 <= f < FILES ==> fs[f].refs == 0) && (forall q :: 0 <= q < PIPES ==> !ps[q].live)
  {
    forall f | 0 <= f < FILES ensures fs[f].refs == 0 { CountNamed(es, f); }
    forall q | 0 <= q < PIPES ensures !ps[q].live { PipeLifetime(es, fs, ps, q); }
  }
}