/** Reads, writes, seeks and truncations on open host files: what each request does to the files and to
    the file cursors, over any set of descriptors, several of which may share a file. */
module FileRequests {
  import opened Bytes
  import opened FdTable
  import opened Wrappers

  const MAX_INLINE_READ_DATA := 38
  const MAX_INLINE_WRITE_DATA := 24

  const HOSTFS_ERR_IO := -5
  const HOSTFS_ERR_IS_DIR := -21
  const HOSTFS_ERR_INVALID := -22

  const SEEK_SET := 0
  const SEEK_CUR := 1
  const SEEK_END := 2

  /** An open file of the host: which file, the cursor, and whether it was opened for appending. */
  datatype Handle = Handle(inode: nat, pos: nat, append: bool)

  /** What the host makes of a call, beyond the rules modelled here: it refuses with a code, or reads or
      writes at most so many bytes. */
  datatype Host = Refuses(code: int) | Grants(n: nat)

  type Entry = FdEntry<Handle>

  /** `limit` is the largest file offset that the host filesystem supports. */
  datatype Files = Files(entries: map<Fd, Entry>, contents: map<nat, Bytes>, limit: nat)

  ghost predicate Valid(s: Files)
  {
    && (forall fd :: fd in s.entries ==> s.entries[fd].file.inode in s.contents && s.entries[fd].file.pos <= s.limit)
    && (forall n :: n in s.contents ==> |s.contents[n]| <= s.limit)
  }

  datatype Request =
    | Read(fd: int, count: nat, offset: int, host: Host)
    | Write(fd: int, offset: int, data: Bytes, host: Host)
    | Lseek(fd: int, offset: int, whence: int)
    | Truncate(fd: int, length: int, host: Host)

  datatype Response =
    | ReadResponse(bytesRead: int, data: Bytes)
    | WriteResponse(bytesWritten: int)
    | LseekResponse(offset: int)
    | TruncateResponse(status: int)

  function Min(a: int, b: int): int
  {
    if a <= b then a else b
  }

  //
  // What a request means
  //

  /** The bytes of a file from `start`, at most `n` of them. */
  function Slice(content: Bytes, start: nat, n: nat): (s: Bytes)
    ensures |s| <= n && start + |s| <= (if start <= |content| then |content| else start)
  {
    if start >= |content| then [] else content[start..Min(start + n, |content|)]
  }

  /** A file with `data` written at `start`; a gap before it reads as zeros. */
  function Patch(content: Bytes, start: nat, data: Bytes): (r: Bytes)
    ensures data != [] ==> |r| == if start + |data| <= |content| then |content| else start + |data|
  {
    if data == [] then content
    else if start > |content| then content + seq(start - |content|, _ => 0) + data
    else if start + |data| >= |content| then content[..start] + data
    else content[..start] + data + content[start + |data|..]
  }

  function Resize(content: Bytes, n: nat): (r: Bytes)
    ensures |r| == n
  {
    if n <= |content| then content[..n] else content + seq(n - |content|, _ => 0)
  }

  function MoveTo(s: Files, fd: Fd, pos: nat): Files
    requires fd in s.entries
  {
    s.(entries := s.entries[fd := s.entries[fd].(file := s.entries[fd].file.(pos := pos))])
  }

  lemma MoveBack(s: Files, fd: Fd, pos: nat)
    requires fd in s.entries
    ensures MoveTo(MoveTo(s, fd, pos), fd, s.entries[fd].file.pos) == s
  {
    assert MoveTo(MoveTo(s, fd, pos), fd, s.entries[fd].file.pos).entries == s.entries;
  }

  lemma MoveTwice(s: Files, fd: Fd, a: nat, b: nat)
    requires fd in s.entries
    ensures MoveTo(MoveTo(s, fd, a), fd, b) == MoveTo(s, fd, b)
  {
    assert MoveTo(MoveTo(s, fd, a), fd, b).entries == MoveTo(s, fd, b).entries;
  }

  /** `pread` or `read`: a read at an offset leaves the cursor alone. */
  function DoRead(s: Files, fd: int, count: nat, offset: int, host: Host): (r: (Files, Response))
    requires Valid(s)
  {
    if fd !in s.entries || s.entries[fd].isDir || offset > s.limit || host.Refuses? then (s, ReadResponse(-1, []))
    else
      var h := s.entries[fd].file;
      var n := Min(Min(count, MAX_INLINE_READ_DATA), host.n);
      var data := Slice(s.contents[h.inode], if offset >= 0 then offset else h.pos, n);
      (if offset >= 0 then s else MoveTo(s, fd, h.pos + |data|), ReadResponse(|data|, data))
  }

  /** Where a write lands: a file opened for appending grows at its end whatever the offset. */
  function Target(s: Files, h: Handle, offset: int): nat
    requires h.inode in s.contents
  {
    if h.append then |s.contents[h.inode]| else if offset >= 0 then offset else h.pos
  }

  /** What the host writes of `data` at the cursor; writing nothing does not move it. */
  function Written(s: Files, fd: Fd, start: nat, w: Bytes, offset: int): Files
    requires fd in s.entries && s.entries[fd].file.inode in s.contents
  {
    var n := s.entries[fd].file.inode;
    var s' := s.(contents := s.contents[n := Patch(s.contents[n], start, w)]);
    if offset >= 0 || w == [] then s' else MoveTo(s', fd, start + |w|)
  }

  /** How much of `data` is written, if the host takes `n` bytes. */
  function Taken(data: Bytes, n: nat): (k: nat)
    ensures k <= |data| && k <= 24 && k <= n && (k == |data| || k == 24 || k == n)
  {
    Min(Min(|data|, MAX_INLINE_WRITE_DATA), n)
  }

  /** `pwrite` or `write`: a write at an offset leaves the cursor alone. */
  function DoWrite(s: Files, fd: int, offset: int, data: Bytes, host: Host): (r: (Files, Response))
    requires Valid(s)
  {
    if fd !in s.entries || s.entries[fd].isDir || offset > s.limit || host.Refuses? then (s, WriteResponse(-1))
    else
      var w := data[..Taken(data, host.n)];
      var start := Target(s, s.entries[fd].file, offset);
      if start + |w| > s.limit then (s, WriteResponse(-1)) else (Written(s, fd, start, w, offset), WriteResponse(|w|))
  }

  function DoLseek(s: Files, fd: int, offset: int, whence: int): (r: (Files, Response))
    requires Valid(s)
  {
    if fd !in s.entries then (s, LseekResponse(HOSTFS_ERR_IO))
    else if whence !in {SEEK_SET, SEEK_CUR, SEEK_END} then (s, LseekResponse(HOSTFS_ERR_INVALID))
    else if whence == SEEK_SET && offset < 0 then (s, LseekResponse(HOSTFS_ERR_INVALID))
    else
      var h := s.entries[fd].file;
      var base := if whence == SEEK_SET then 0 else if whence == SEEK_CUR then h.pos else |s.contents[h.inode]|;
      var pos := base + offset;
      if pos < 0 || pos > s.limit then (s, LseekResponse(HOSTFS_ERR_IO))
      else (MoveTo(s, fd, pos), LseekResponse(pos))
  }

  function DoTruncate(s: Files, fd: int, length: int, host: Host): (r: (Files, Response))
    requires Valid(s)
  {
    if length < 0 then (s, TruncateResponse(HOSTFS_ERR_INVALID))
    else if fd !in s.entries then (s, TruncateResponse(HOSTFS_ERR_IO))
    else if s.entries[fd].isDir then (s, TruncateResponse(HOSTFS_ERR_IS_DIR))
    else if host.Refuses? then (s, TruncateResponse(host.code))
    else if length > s.limit then (s, TruncateResponse(HOSTFS_ERR_IO))
    else
      var n := s.entries[fd].file.inode;
      (s.(contents := s.contents[n := Resize(s.contents[n], length)]), TruncateResponse(0))
  }

  function Serve(s: Files, req: Request): (r: (Files, Response))
    requires Valid(s)
    ensures Valid(r.0) && r.0.limit == s.limit && r.0.entries.Keys == s.entries.Keys
  {
    match req
    case Read(fd, count, offset, host) => DoRead(s, fd, count, offset, host)
    case Write(fd, offset, data, host) => DoWrite(s, fd, offset, data, host)
    case Lseek(fd, offset, whence) => DoLseek(s, fd, offset, whence)
    case Truncate(fd, length, host) => DoTruncate(s, fd, length, host)
  }

  function Final(s: Files, reqs: seq<Request>): (s': Files)
    requires Valid(s)
    ensures Valid(s')
    decreases |reqs|
  {
    if reqs == [] then s else Final(Serve(s, reqs[0]).0, reqs[1..])
  }

  //
  // What each request answers and does, in full
  //

  /** A read fails exactly for a descriptor that is not open or is a directory, an offset past the limit, or
      a host that refuses, and then changes nothing. Otherwise it answers with the bytes from the offset or
      cursor, as many as were asked for, fit the message, the host grants and the file has, and with their
      number; and the cursor moves over them exactly if no offset was given. */
  lemma ReadInFull(s: Files, fd: int, count: nat, offset: int, host: Host)
    requires Valid(s)
    ensures
      var (s', r) := DoRead(s, fd, count, offset, host);
      if fd !in s.entries || s.entries[fd].isDir || offset > s.limit || host.Refuses? then
        s' == s && r == ReadResponse(-1, [])
      else
        var (h, content) := (s.entries[fd].file, s.contents[s.entries[fd].file.inode]);
        var at := if offset >= 0 then offset else h.pos;
        && r.ReadResponse? && r.bytesRead == |r.data|
        && |r.data| <= count && |r.data| <= 38 && |r.data| <= host.n && (r.data != [] ==> at + |r.data| <= |content|)
        && (|r.data| == count || |r.data| == 38 || |r.data| == host.n || at + |r.data| >= |content|)
        && (forall i :: 0 <= i < |r.data| ==> r.data[i] == content[at + i])
        && s'.contents == s.contents && s'.entries.Keys == s.entries.Keys
        && s'.entries[fd].file == (if offset >= 0 then h else h.(pos := h.pos + |r.data|))
  {
    if fd in s.entries && host.Grants? {
      var h := s.entries[fd].file;
      SliceInFull(s.contents[h.inode], if offset >= 0 then offset else h.pos, Min(Min(count, MAX_INLINE_READ_DATA), host.n));
    }
  }

  lemma SliceInFull(content: Bytes, start: nat, n: nat)
    ensures
      var data := Slice(content, start, n);
      && |data| <= n && (data != [] ==> start + |data| <= |content|) && (|data| == n || start + |data| >= |content|)
      && forall i :: 0 <= i < |data| ==> data[i] == content[start + i]
  {
  }

  /** A write fails exactly for a descriptor that is not open or is a directory, an offset past the limit, a
      host that refuses, or an end past the limit, and then changes nothing. Otherwise it answers with the
      number of bytes taken, which are then in the file at the offset or cursor, or at the end of a file
      opened for appending; and the cursor moves past them exactly if there are any and no offset was given. */
  lemma WriteInFull(s: Files, fd: int, offset: int, data: Bytes, host: Host)
    requires Valid(s)
    ensures
      var (s', r) := DoWrite(s, fd, offset, data, host);
      if fd !in s.entries || s.entries[fd].isDir || offset > s.limit || host.Refuses? then
        s' == s && r == WriteResponse(-1)
      else
        var (h, content, n) := (s.entries[fd].file, s.contents[s.entries[fd].file.inode], Taken(data, host.n));
        var start := if h.append then |content| else if offset >= 0 then offset else h.pos;
        if start + n > s.limit then s' == s && r == WriteResponse(-1)
        else
          && r == WriteResponse(n) && h.inode in s'.contents && IsPatched(content, start, data[..n], s'.contents[h.inode])
          && s'.entries.Keys == s.entries.Keys
          && s'.entries[fd].file == (if offset >= 0 || n == 0 then h else h.(pos := start + n))
  {
    if fd in s.entries && !s.entries[fd].isDir && offset <= s.limit && host.Grants? {
      var (h, content, w) := (s.entries[fd].file, s.contents[s.entries[fd].file.inode], data[..Taken(data, host.n)]);
      PatchIsPatched(content, Target(s, h, offset), w);
    }
  }

  /** `after` is `before` with `w` at `start`: the old bytes elsewhere, and zeros in a gap. */
  ghost predicate IsPatched(before: Bytes, start: nat, w: Bytes, after: Bytes)
  {
    && |after| == (if w == [] || start + |w| <= |before| then |before| else start + |w|)
    && forall i :: 0 <= i < |after| ==>
         after[i] == if start <= i < start + |w| then w[i - start] else if i < |before| then before[i] else 0
  }

  lemma PatchIsPatched(content: Bytes, start: nat, w: Bytes)
    ensures IsPatched(content, start, w, Patch(content, start, w))
  {
  }

  /** A seek goes to the offset from the start, the cursor or the end, whichever was asked for. It fails
      exactly for a descriptor that is not open, an unknown origin, a negative offset from the start, or a
      place outside the limits, each with its code, and then moves nothing. */
  lemma LseekInFull(s: Files, fd: int, offset: int, whence: int)
    requires Valid(s)
    ensures
      var (s', r) := DoLseek(s, fd, offset, whence);
      if fd !in s.entries then s' == s && r == LseekResponse(-5)
      else if whence < 0 || whence > 2 || (whence == 0 && offset < 0) then s' == s && r == LseekResponse(-22)
      else
        var h := s.entries[fd].file;
        var pos := offset + (if whence == 1 then h.pos else if whence == 2 then |s.contents[h.inode]| else 0);
        if pos < 0 || pos > s.limit then s' == s && r == LseekResponse(-5)
        else
          && r == LseekResponse(pos) && s'.contents == s.contents && s'.entries.Keys == s.entries.Keys
          && s'.entries[fd].file == h.(pos := pos)
  {
  }

  /** A truncation leaves a file of the length asked for, with the bytes it had and zeros past its old end, and
      moves no cursor. It fails exactly for a negative length, a descriptor that is not open or is a directory,
      a host that refuses, or a length past the limit, each with its code, and then changes nothing. */
  lemma TruncateInFull(s: Files, fd: int, length: int, host: Host)
    requires Valid(s)
    ensures
      var (s', r) := DoTruncate(s, fd, length, host);
      if length < 0 then s' == s && r == TruncateResponse(-22)
      else if fd !in s.entries then s' == s && r == TruncateResponse(-5)
      else if s.entries[fd].isDir then s' == s && r == TruncateResponse(-21)
      else if host.Refuses? then s' == s && r == TruncateResponse(host.code)
      else if length > s.limit then s' == s && r == TruncateResponse(-5)
      else
        var n := s.entries[fd].file.inode;
        && r == TruncateResponse(0) && s'.entries == s.entries && n in s'.contents && |s'.contents[n]| == length
        && forall i :: 0 <= i < length ==> s'.contents[n][i] == if i < |s.contents[n]| then s.contents[n][i] else 0
  {
  }

  //
  // Requests that can be deleted from a run
  //

  function Without(reqs: seq<Request>, gone: Request -> bool): seq<Request>
  {
    if reqs == [] then [] else (if gone(reqs[0]) then [] else [reqs[0]]) + Without(reqs[1..], gone)
  }

  /** The responses to all requests but those. */
  function OtherResponses(s: Files, reqs: seq<Request>, gone: Request -> bool): seq<Response>
    requires Valid(s)
    decreases |reqs|
  {
    if reqs == [] then [] else
    (if gone(reqs[0]) then [] else [Serve(s, reqs[0]).1]) + OtherResponses(Serve(s, reqs[0]).0, reqs[1..], gone)
  }

  lemma KeepFirst(req: Request, rest: seq<Request>, s: Files, gone: Request -> bool)
    requires Valid(s) && !gone(req)
    ensures OtherResponses(s, [req] + rest, gone) == [Serve(s, req).1] + OtherResponses(Serve(s, req).0, rest, gone)
    ensures Final(s, [req] + rest) == Final(Serve(s, req).0, rest)
  {
    assert ([req] + rest)[1..] == rest;
  }

  predicate Positional(req: Request)
  {
    req.Read? && req.offset >= 0
  }

  /** Deleting every positional read from any run changes no other response, no file and no cursor. */
  lemma {:induction false} PositionalReadsInvisible(s: Files, reqs: seq<Request>)
    requires Valid(s)
    ensures OtherResponses(s, reqs, Positional) == OtherResponses(s, Without(reqs, Positional), Positional)
    ensures Final(s, reqs) == Final(s, Without(reqs, Positional))
    decreases |reqs|
  {
    if reqs != [] {
      var s' := Serve(s, reqs[0]).0;
      var rest := Without(reqs[1..], Positional);
      PositionalReadsInvisible(s', reqs[1..]);
      if Positional(reqs[0]) {
        assert s' == s;
        assert Without(reqs, Positional) == rest;
        assert OtherResponses(s, reqs, Positional) == OtherResponses(s, reqs[1..], Positional);
      } else {
        KeepFirst(reqs[0], rest, s, Positional);
        assert Without(reqs, Positional) == [reqs[0]] + rest;
      }
    }
  }

  //
  // Descriptors that share no file do not interfere
  //

  function On(ds: set<int>): Request -> bool
  {
    (req: Request) => req.fd in ds
  }

  /** Some descriptor in `ds`, not of a directory, has file `n` open. */
  ghost predicate OwnedBy(s: Files, ds: set<int>, n: nat)
  {
    exists fd :: fd in ds && fd in s.entries && !s.entries[fd].isDir && s.entries[fd].file.inode == n
  }

  /** No file is open both through a descriptor in `ds` and through another. */
  ghost predicate Separated(s: Files, ds: set<int>)
  {
    forall fd :: fd in s.entries && fd !in ds ==> !OwnedBy(s, ds, s.entries[fd].file.inode)
  }

  ghost predicate SameShape(s: Files, t: Files)
  {
    && s.limit == t.limit && s.entries.Keys == t.entries.Keys && s.contents.Keys == t.contents.Keys
    && (forall fd :: fd in s.entries ==>
          s.entries[fd].file.inode == t.entries[fd].file.inode && s.entries[fd].isDir == t.entries[fd].isDir)
  }

  ghost predicate SameCursors(s: Files, t: Files, ds: set<int>)
    requires SameShape(s, t)
  {
    forall fd :: fd in s.entries && fd !in ds ==> s.entries[fd] == t.entries[fd]
  }

  ghost predicate SameFiles(s: Files, t: Files, ds: set<int>)
    requires SameShape(s, t)
  {
    forall n :: n in s.contents && !OwnedBy(s, ds, n) ==> s.contents[n] == t.contents[n]
  }

  /** `s` and `t` differ at most in the cursors of `ds` and the files that those have open. */
  ghost predicate Agree(s: Files, t: Files, ds: set<int>)
  {
    Valid(s) && Valid(t) && Separated(s, ds) && SameShape(s, t) && SameCursors(s, t, ds) && SameFiles(s, t, ds)
  }

  /** What a request on one descriptor can change. */
  ghost predicate Local(s: Files, fd: int, s': Files)
  {
    && SameShape(s, s')
    && (forall k :: k in s.entries && k != fd ==> s'.entries[k] == s.entries[k])
    && (forall n :: n in s.contents && !(fd in s.entries && !s.entries[fd].isDir && n == s.entries[fd].file.inode) ==>
          s'.contents[n] == s.contents[n])
  }

  lemma WriteIsLocal(s: Files, fd: int, offset: int, data: Bytes, host: Host)
    requires Valid(s)
    ensures Local(s, fd, DoWrite(s, fd, offset, data, host).0)
  {
  }

  lemma ReadIsLocal(s: Files, fd: int, count: nat, offset: int, host: Host)
    requires Valid(s)
    ensures Local(s, fd, DoRead(s, fd, count, offset, host).0)
  {
  }

  lemma LseekIsLocal(s: Files, fd: int, offset: int, whence: int)
    requires Valid(s)
    ensures Local(s, fd, DoLseek(s, fd, offset, whence).0)
  {
  }

  lemma TruncateIsLocal(s: Files, fd: int, length: int, host: Host)
    requires Valid(s)
    ensures Local(s, fd, DoTruncate(s, fd, length, host).0)
  {
  }

  lemma ServeIsLocal(s: Files, req: Request)
    requires Valid(s)
    ensures Local(s, req.fd, Serve(s, req).0)
  {
    match req {
      case Read(fd, count, offset, host) => ReadIsLocal(s, fd, count, offset, host);
      case Write(fd, offset, data, host) => WriteIsLocal(s, fd, offset, data, host);
      case Lseek(fd, offset, whence) => LseekIsLocal(s, fd, offset, whence);
      case Truncate(fd, length, host) => TruncateIsLocal(s, fd, length, host);
    }
  }

  lemma LocalKeepsOwners(s: Files, fd: int, s': Files, ds: set<int>, n: nat)
    requires Local(s, fd, s')
    ensures OwnedBy(s, ds, n) <==> OwnedBy(s', ds, n)
  {
    if OwnedBy(s, ds, n) {
      var k :| k in ds && k in s.entries && !s.entries[k].isDir && s.entries[k].file.inode == n;
      assert s'.entries[k].file.inode == n;
    }
  }

  lemma LocalKeepsSeparated(s: Files, fd: int, s': Files, ds: set<int>)
    requires Local(s, fd, s') && Separated(s, ds)
    ensures Separated(s', ds)
  {
    forall k | k in s'.entries && k !in ds ensures !OwnedBy(s', ds, s'.entries[k].file.inode) {
      LocalKeepsOwners(s, fd, s', ds, s'.entries[k].file.inode);
    }
  }

  lemma HiddenStepAgrees(s: Files, t: Files, req: Request, ds: set<int>)
    requires Agree(s, t, ds) && req.fd in ds
    ensures Agree(Serve(s, req).0, t, ds)
  {
    var s' := Serve(s, req).0;
    ServeIsLocal(s, req);
    LocalKeepsSeparated(s, req.fd, s', ds);
    forall n | n in s'.contents && !OwnedBy(s', ds, n) ensures s'.contents[n] == t.contents[n] {
      LocalKeepsOwners(s, req.fd, s', ds, n);
    }
  }

  /** All that a request on `fd` can see is the same in `s` and `t`. */
  ghost predicate SameView(s: Files, t: Files, fd: int)
  {
    && s.limit == t.limit && (fd in s.entries <==> fd in t.entries)
    && (fd in s.entries ==>
          && s.entries[fd] == t.entries[fd]
          && s.entries[fd].file.inode in s.contents && s.entries[fd].file.inode in t.contents
          && s.contents[s.entries[fd].file.inode] == t.contents[s.entries[fd].file.inode])
  }

  lemma SameWrite(s: Files, t: Files, fd: int, offset: int, data: Bytes, host: Host)
    requires Valid(s) && Valid(t) && SameView(s, t, fd)
    ensures DoWrite(s, fd, offset, data, host).1 == DoWrite(t, fd, offset, data, host).1
    ensures SameView(DoWrite(s, fd, offset, data, host).0, DoWrite(t, fd, offset, data, host).0, fd)
  {
  }

  lemma SameRead(s: Files, t: Files, fd: int, count: nat, offset: int, host: Host)
    requires Valid(s) && Valid(t) && SameView(s, t, fd)
    ensures DoRead(s, fd, count, offset, host).1 == DoRead(t, fd, count, offset, host).1
    ensures SameView(DoRead(s, fd, count, offset, host).0, DoRead(t, fd, count, offset, host).0, fd)
  {
  }

  lemma SameLseek(s: Files, t: Files, fd: int, offset: int, whence: int)
    requires Valid(s) && Valid(t) && SameView(s, t, fd)
    ensures DoLseek(s, fd, offset, whence).1 == DoLseek(t, fd, offset, whence).1
    ensures SameView(DoLseek(s, fd, offset, whence).0, DoLseek(t, fd, offset, whence).0, fd)
  {
  }

  lemma SameTruncate(s: Files, t: Files, fd: int, length: int, host: Host)
    requires Valid(s) && Valid(t) && SameView(s, t, fd)
    ensures DoTruncate(s, fd, length, host).1 == DoTruncate(t, fd, length, host).1
    ensures SameView(DoTruncate(s, fd, length, host).0, DoTruncate(t, fd, length, host).0, fd)
  {
  }

  /** A request answers and acts by what it can see. */
  lemma SameAnswer(s: Files, t: Files, req: Request)
    requires Valid(s) && Valid(t) && SameView(s, t, req.fd)
    ensures Serve(s, req).1 == Serve(t, req).1
    ensures SameView(Serve(s, req).0, Serve(t, req).0, req.fd)
  {
    match req {
      case Read(fd, count, offset, host) => SameRead(s, t, fd, count, offset, host);
      case Write(fd, offset, data, host) => SameWrite(s, t, fd, offset, data, host);
      case Lseek(fd, offset, whence) => SameLseek(s, t, fd, offset, whence);
      case Truncate(fd, length, host) => SameTruncate(s, t, fd, length, host);
    }
  }

  lemma SeenStepAgrees(s: Files, t: Files, req: Request, ds: set<int>)
    requires Agree(s, t, ds) && req.fd !in ds
    ensures Serve(s, req).1 == Serve(t, req).1
    ensures Agree(Serve(s, req).0, Serve(t, req).0, ds)
  {
    SameAnswer(s, t, req);
    ServeIsLocal(s, req);
    ServeIsLocal(t, req);
    LocalStepsAgree(s, t, req.fd, Serve(s, req).0, Serve(t, req).0, ds);
  }

  lemma LocalStepsAgree(s: Files, t: Files, fd: int, s': Files, t': Files, ds: set<int>)
    requires Agree(s, t, ds) && fd !in ds && Valid(s') && Valid(t')
    requires Local(s, fd, s') && Local(t, fd, t') && SameView(s', t', fd)
    ensures Agree(s', t', ds)
  {
    LocalKeepsSeparated(s, fd, s', ds);
    ShapesCompose(s, t, s', t');
    LocalStepsSameFiles(s, t, fd, s', t', ds);
  }

  lemma ShapesCompose(s: Files, t: Files, s': Files, t': Files)
    requires SameShape(s, t) && SameShape(s, s') && SameShape(t, t')
    ensures SameShape(s', t')
  {
  }

  lemma LocalStepsSameFiles(s: Files, t: Files, fd: int, s': Files, t': Files, ds: set<int>)
    requires SameShape(s, t) && SameFiles(s, t, ds) && SameShape(s', t')
    requires Local(s, fd, s') && Local(t, fd, t') && SameView(s', t', fd)
    ensures SameFiles(s', t', ds)
  {
    forall n | n in s'.contents && !OwnedBy(s', ds, n) ensures s'.contents[n] == t'.contents[n] {
      LocalKeepsOwners(s, fd, s', ds, n);
      if !(fd in s.entries && !s.entries[fd].isDir && n == s.entries[fd].file.inode) {
        assert s'.contents[n] == s.contents[n] && t'.contents[n] == t.contents[n];
      }
    }
  }

  lemma {:induction false} DeletionAgrees(s: Files, t: Files, reqs: seq<Request>, ds: set<int>)
    requires Agree(s, t, ds)
    ensures
      var gone := On(ds);
      && OtherResponses(s, reqs, gone) == OtherResponses(t, Without(reqs, gone), gone)
      && Agree(Final(s, reqs), Final(t, Without(reqs, gone)), ds)
    decreases |reqs|
  {
    var gone := On(ds);
    if reqs != [] {
      var rest := Without(reqs[1..], gone);
      if gone(reqs[0]) {
        HiddenStepAgrees(s, t, reqs[0], ds);
        DeletionAgrees(Serve(s, reqs[0]).0, t, reqs[1..], ds);
        assert [] + rest == rest;
      } else {
        SeenStepAgrees(s, t, reqs[0], ds);
        DeletionAgrees(Serve(s, reqs[0]).0, Serve(t, reqs[0]).0, reqs[1..], ds);
        assert ([reqs[0]] + rest)[1..] == rest;
      }
    }
  }

  /** Let no file be open both through a descriptor in `ds` and through another. Then deleting every request
      on `ds` from any run changes no other response, no other cursor and no other file. */
  lemma DescriptorsDoNotInterfere(s: Files, reqs: seq<Request>, ds: set<int>)
    requires Valid(s) && Separated(s, ds)
    ensures
      var gone := On(ds);
      var (with, without) := (Final(s, reqs), Final(s, Without(reqs, gone)));
      && OtherResponses(s, reqs, gone) == OtherResponses(s, Without(reqs, gone), gone)
      && (forall fd :: fd in s.entries && fd !in ds ==>
            fd in with.entries && fd in without.entries && with.entries[fd] == without.entries[fd])
      && (forall n :: n in s.contents && !OwnedBy(s, ds, n) ==>
            n in with.contents && n in without.contents && with.contents[n] == without.contents[n])
  {
    DeletionAgrees(s, s, reqs, ds);
    FinalKeepsOwners(s, reqs, ds);
  }

  /** The requests with which a descriptor shows another that it has changed their file. */
  lemma SharingShows(s: Files, fd1: Fd, fd2: Fd, ds: set<int>) returns (reqs: seq<Request>)
    requires Valid(s) && s.limit > 0 && fd1 in ds && fd2 !in ds && fd1 in s.entries && fd2 in s.entries
    requires !s.entries[fd1].isDir && s.entries[fd1].file.inode == s.entries[fd2].file.inode
    ensures OtherResponses(s, reqs, On(ds)) != OtherResponses(s, Without(reqs, On(ds)), On(ds))
  {
    var size := |s.contents[s.entries[fd1].file.inode]|;
    var length := if size == 0 then 1 else 0;
    var (cut, ask) := (Truncate(fd1, length, Grants(0)), Lseek(fd2, 0, SEEK_END));
    reqs := [cut, ask];
    var s' := Serve(s, cut).0;
    TruncateInFull(s, fd1, length, Grants(0));
    AskSize(s', fd2, ds);
    AskSize(s, fd2, ds);
    assert reqs[1..] == [ask];
    assert Without(reqs, On(ds)) == [] + Without([ask], On(ds)) == [ask];
    assert OtherResponses(s, reqs, On(ds)) == [] + OtherResponses(s', [ask], On(ds)) == [LseekResponse(length)];
    assert OtherResponses(s, [ask], On(ds)) == [LseekResponse(size)];
    assert [LseekResponse(length)][0] != [LseekResponse(size)][0];
  }

  /** A descriptor can always ask for the size of its file. */
  lemma AskSize(s: Files, fd: Fd, ds: set<int>)
    requires Valid(s) && fd in s.entries && fd !in ds
    ensures Without([Lseek(fd, 0, SEEK_END)], On(ds)) == [Lseek(fd, 0, SEEK_END)]
    ensures OtherResponses(s, [Lseek(fd, 0, SEEK_END)], On(ds)) == [LseekResponse(|s.contents[s.entries[fd].file.inode]|)]
  {
    var ask := Lseek(fd, 0, SEEK_END);
    assert [ask][1..] == [] && [ask] == [ask] + [];
    LseekInFull(s, fd, 0, SEEK_END);
    KeepFirst(ask, [], s, On(ds));
  }

  /** The condition is exact: the requests on `ds` can be deleted from every run without changing another
      response if and only if no file is open both through a descriptor in `ds` and through another. */
  lemma InterferenceIff(s: Files, ds: set<int>)
    requires Valid(s) && s.limit > 0
    ensures Separated(s, ds)
       <==> forall reqs :: OtherResponses(s, reqs, On(ds)) == OtherResponses(s, Without(reqs, On(ds)), On(ds))
  {
    if Separated(s, ds) {
      forall reqs ensures OtherResponses(s, reqs, On(ds)) == OtherResponses(s, Without(reqs, On(ds)), On(ds)) {
        DescriptorsDoNotInterfere(s, reqs, ds);
      }
    } else {
      var fd2 :| fd2 in s.entries && fd2 !in ds && OwnedBy(s, ds, s.entries[fd2].file.inode);
      var fd1 :| fd1 in ds && fd1 in s.entries && !s.entries[fd1].isDir
                 && s.entries[fd1].file.inode == s.entries[fd2].file.inode;
      var reqs := SharingShows(s, fd1, fd2, ds);
    }
  }

  lemma {:induction false} FinalKeepsOwners(s: Files, reqs: seq<Request>, ds: set<int>)
    requires Valid(s)
    ensures Final(s, reqs).entries.Keys == s.entries.Keys && Final(s, reqs).contents.Keys == s.contents.Keys
    ensures forall n :: OwnedBy(Final(s, reqs), ds, n) <==> OwnedBy(s, ds, n)
    decreases |reqs|
  {
    if reqs != [] {
      var s' := Serve(s, reqs[0]).0;
      ServeIsLocal(s, reqs[0]);
      FinalKeepsOwners(s', reqs[1..], ds);
      forall n ensures OwnedBy(s', ds, n) <==> OwnedBy(s, ds, n) { LocalKeepsOwners(s, reqs[0].fd, s', ds, n); }
    }
  }

  //
  // Sequential reads
  //

  /** What one request adds to what the sequential reads of `fd` have returned. */
  function Gain(s: Files, fd: int, req: Request): Bytes
    requires Valid(s)
  {
    if req.Read? && req.fd == fd && !Positional(req) then DoRead(s, fd, req.count, req.offset, req.host).1.data else []
  }

  function Gathered(s: Files, fd: int, reqs: seq<Request>): Bytes
    requires Valid(s)
    decreases |reqs|
  {
    if reqs == [] then [] else Gain(s, fd, reqs[0]) + Gathered(Serve(s, reqs[0]).0, fd, reqs[1..])
  }

  lemma SliceJoin(content: Bytes, a: nat, b: nat, c: nat)
    requires a <= b <= c
    ensures Slice(content, a, b - a) + Slice(content, b, c - b) == Slice(content, a, c - a)
  {
  }

  /** Between `s` and `s'` no file has changed, and `fd` has moved over `data`. */
  ghost predicate Covered(s: Files, fd: Fd, data: Bytes, s': Files)
    requires Valid(s) && fd in s.entries
  {
    var h := s.entries[fd].file;
    && s'.contents == s.contents
    && fd in s'.entries && s'.entries[fd].file == h.(pos := h.pos + |data|)
    && data == Slice(s.contents[h.inode], h.pos, |data|)
  }

  lemma CoveredJoin(s: Files, fd: Fd, a: Bytes, s1: Files, b: Bytes, s2: Files)
    requires Valid(s) && fd in s.entries && Valid(s1) && fd in s1.entries
    requires Covered(s, fd, a, s1) && Covered(s1, fd, b, s2)
    ensures Covered(s, fd, a + b, s2)
  {
    var h := s.entries[fd].file;
    SliceJoin(s.contents[h.inode], h.pos, h.pos + |a|, h.pos + |a| + |b|);
  }

  lemma ReadGains(s: Files, fd: Fd, req: Request)
    requires Valid(s) && fd in s.entries && req.Read?
    ensures Covered(s, fd, Gain(s, fd, req), Serve(s, req).0)
  {
    if req.fd != fd || Positional(req) {
      assert Gain(s, fd, req) == [];
    }
  }

  /** As long as requests only read, on any descriptors and at any offsets, the sequential reads of a
      descriptor return exactly the stretch of its file between where its cursor was and where it is:
      nothing is skipped and nothing is returned twice. */
  lemma {:induction false} SequentialReadsCover(s: Files, fd: Fd, reqs: seq<Request>)
    requires Valid(s) && fd in s.entries
    requires forall i :: 0 <= i < |reqs| ==> reqs[i].Read?
    ensures Covered(s, fd, Gathered(s, fd, reqs), Final(s, reqs))
    decreases |reqs|
  {
    if reqs != [] {
      ReadGains(s, fd, reqs[0]);
      var s1 := Serve(s, reqs[0]).0;
      SequentialReadsCover(s1, fd, reqs[1..]);
      CoveredJoin(s, fd, Gain(s, fd, reqs[0]), s1, Gathered(s1, fd, reqs[1..]), Final(s1, reqs[1..]));
    }
  }

  //
  // Sequential writes
  //

  /** What one request adds to what the sequential writes of `fd` have written. */
  function Put(s: Files, fd: int, req: Request): Bytes
    requires Valid(s)
  {
    if !(req.Write? && req.fd == fd && req.offset < 0) then [] else
    var n := DoWrite(s, fd, req.offset, req.data, req.host).1.bytesWritten;
    if n > 0 then req.data[..n] else []
  }

  function PutAll(s: Files, fd: int, reqs: seq<Request>): Bytes
    requires Valid(s)
    decreases |reqs|
  {
    if reqs == [] then [] else Put(s, fd, reqs[0]) + PutAll(Serve(s, reqs[0]).0, fd, reqs[1..])
  }

  /** A sequential write of `fd`, a positional read, or a request on a descriptor of another file. */
  ghost predicate WritesOrAway(s: Files, fd: Fd, req: Request)
    requires fd in s.entries
  {
    || (req.Write? && req.fd == fd && req.offset < 0)
    || (req.Read? && req.offset >= 0)
    || (req.fd != fd && (req.fd in s.entries ==> s.entries[req.fd].file.inode != s.entries[fd].file.inode))
  }

  /** Where the next sequential write lands. */
  function WriteStart(s: Files, fd: Fd): nat
    requires Valid(s) && fd in s.entries
  {
    Target(s, s.entries[fd].file, -1)
  }

  /** Between `s` and `s'` the file of `fd` has got `w` where the writes started, and `fd` has moved past it. */
  ghost predicate Extended(s: Files, fd: Fd, w: Bytes, s': Files)
    requires Valid(s) && fd in s.entries
  {
    var h := s.entries[fd].file;
    && fd in s'.entries && s'.entries[fd].isDir == s.entries[fd].isDir && h.inode in s'.contents
    && s'.entries[fd].file == (if w == [] then h else h.(pos := WriteStart(s, fd) + |w|))
    && IsPatched(s.contents[h.inode], WriteStart(s, fd), w, s'.contents[h.inode])
  }

  lemma PatchedJoin(content: Bytes, start: nat, a: Bytes, mid: Bytes, b: Bytes, after: Bytes)
    requires a != [] && IsPatched(content, start, a, mid) && IsPatched(mid, start + |a|, b, after)
    ensures IsPatched(content, start, a + b, after)
  {
    var w := a + b;
    forall i | 0 <= i < |after|
      ensures after[i] == if start <= i < start + |w| then w[i - start] else if i < |content| then content[i] else 0
    {
      if start + |a| <= i < start + |w| {
        assert w[i - start] == b[i - (start + |a|)];
      } else if i < |mid| {
        assert after[i] == mid[i];
      }
    }
  }

  lemma ExtendedJoin(s: Files, fd: Fd, a: Bytes, s1: Files, b: Bytes, s2: Files)
    requires Valid(s) && fd in s.entries && Valid(s1) && Extended(s, fd, a, s1) && Extended(s1, fd, b, s2)
    ensures Extended(s, fd, a + b, s2)
  {
    var n := s.entries[fd].file.inode;
    if a == [] {
      assert a + b == b;
      assert s1.contents[n] == s.contents[n];
    } else {
      assert WriteStart(s1, fd) == WriteStart(s, fd) + |a|;
      PatchedJoin(s.contents[n], WriteStart(s, fd), a, s1.contents[n], b, s2.contents[n]);
    }
  }

  lemma WriteExtends(s: Files, fd: Fd, req: Request)
    requires Valid(s) && fd in s.entries && req.Write? && req.fd == fd && req.offset < 0
    ensures Extended(s, fd, Put(s, fd, req), Serve(s, req).0)
  {
    WriteInFull(s, fd, req.offset, req.data, req.host);
  }

  lemma AwayExtends(s: Files, fd: Fd, req: Request)
    requires Valid(s) && fd in s.entries && WritesOrAway(s, fd, req)
    requires !(req.Write? && req.fd == fd && req.offset < 0)
    ensures Put(s, fd, req) == [] && Extended(s, fd, [], Serve(s, req).0)
  {
    ServeIsLocal(s, req);
    if req.Read? && req.offset >= 0 { ReadInFull(s, req.fd, req.count, req.offset, req.host); }
  }

  ghost predicate AllWriteOrAway(s: Files, fd: Fd, reqs: seq<Request>)
    requires Valid(s) && fd in s.entries
    decreases |reqs|
  {
    reqs != [] ==> WritesOrAway(s, fd, reqs[0]) && AllWriteOrAway(Serve(s, reqs[0]).0, fd, reqs[1..])
  }

  /** Over any run of sequential writes on a descriptor, with positional reads and requests on other files in
      between, the file is the old one with all that was taken, in order and without gaps, where the writes
      started: at the cursor, or at the end of a file opened for appending. The cursor is behind it. */
  lemma {:induction false} SequentialWritesExtend(s: Files, fd: Fd, reqs: seq<Request>)
    requires Valid(s) && fd in s.entries && AllWriteOrAway(s, fd, reqs)
    ensures Extended(s, fd, PutAll(s, fd, reqs), Final(s, reqs))
    decreases |reqs|
  {
    if reqs != [] {
      var s1 := Serve(s, reqs[0]).0;
      if reqs[0].Write? && reqs[0].fd == fd && reqs[0].offset < 0 {
        WriteExtends(s, fd, reqs[0]);
      } else {
        AwayExtends(s, fd, reqs[0]);
      }
      SequentialWritesExtend(s1, fd, reqs[1..]);
      ExtendedJoin(s, fd, Put(s, fd, reqs[0]), s1, PutAll(s1, fd, reqs[1..]), Final(s1, reqs[1..]));
    }
  }

  /** What was written so can be read back from where the writes started. */
  lemma ReadBack(s: Files, fd: Fd, reqs: seq<Request>, count: nat, n: nat)
    requires Valid(s) && fd in s.entries && !s.entries[fd].isDir && AllWriteOrAway(s, fd, reqs)
    requires Min(count, n) <= |PutAll(s, fd, reqs)| && WriteStart(s, fd) <= s.limit
    ensures
      var k := Min(Min(count, MAX_INLINE_READ_DATA), n);
      DoRead(Final(s, reqs), fd, count, WriteStart(s, fd), Grants(n)).1 == ReadResponse(k, PutAll(s, fd, reqs)[..k])
  {
    var (w, start, s') := (PutAll(s, fd, reqs), WriteStart(s, fd), Final(s, reqs));
    SequentialWritesExtend(s, fd, reqs);
    FinalKeepsLimit(s, reqs);
    var inode := s.entries[fd].file.inode;
    PatchedSlice(s.contents[inode], start, w, s'.contents[inode], Min(Min(count, MAX_INLINE_READ_DATA), n));
  }

  lemma PatchedSlice(content: Bytes, start: nat, w: Bytes, after: Bytes, k: nat)
    requires IsPatched(content, start, w, after) && k <= |w|
    ensures Slice(after, start, k) == w[..k]
  {
    SliceInFull(after, start, k);
  }

  lemma {:induction false} FinalKeepsLimit(s: Files, reqs: seq<Request>)
    requires Valid(s)
    ensures Final(s, reqs).limit == s.limit
    decreases |reqs|
  {
    if reqs != [] { FinalKeepsLimit(Serve(s, reqs[0]).0, reqs[1..]); }
  }

  //
  // Positional writes
  //

  /** The bytes of a patched file: the data where it was put, the old bytes elsewhere, zeros between. */
  lemma PatchAt(content: Bytes, start: nat, data: Bytes, i: nat)
    requires data != [] && i < |Patch(content, start, data)|
    ensures Patch(content, start, data)[i]
         == if start <= i < start + |data| then data[i - start] else if i < |content| then content[i] else 0
  {
  }

  /** A positional write that the host takes leaves every cursor and every other file alone; it has the effect
      of `pwrite`, putting what is written at the offset asked for, if and only if nothing is to be written,
      the file was not opened for appending, or the offset is its end. */
  lemma PositionalWriteIsPwriteIff(s: Files, fd: Fd, offset: nat, data: Bytes, n: nat)
    requires Valid(s) && fd in s.entries && !s.entries[fd].isDir && offset <= s.limit
    requires Target(s, s.entries[fd].file, offset) + Taken(data, n) <= s.limit
    ensures
      var (h, s') := (s.entries[fd].file, DoWrite(s, fd, offset, data, Grants(n)).0);
      && DoWrite(s, fd, offset, data, Grants(n)).1 == WriteResponse(Taken(data, n)) && s'.entries == s.entries
      && (forall k :: k in s.contents && k != h.inode ==> k in s'.contents && s'.contents[k] == s.contents[k])
      && (s'.contents[h.inode] == Patch(s.contents[h.inode], offset, data[..Taken(data, n)])
          <==> data == [] || n == 0 || !h.append || offset == |s.contents[h.inode]|)
  {
    var content := s.contents[s.entries[fd].file.inode];
    var w := data[..Taken(data, n)];
    if w != [] && offset != |content| {
      assert |Patch(content, offset, w)| != |Patch(content, |content|, w)|;
    }
  }

  /** A byte written at offset 0 of a file of two bytes that was opened for appending becomes its third. */
  lemma AppendCounterexample()
    ensures
      var file := FdEntry(Handle(7, 0, true), false, "f", None);
      var s := Files(map[1 := file], map[7 := [1, 2]], 100);
      Valid(s) && DoWrite(s, 1, 0, [9], Grants(1)).0.contents == map[7 := [1, 2, 9]]
  {
    var file := FdEntry(Handle(7, 0, true), false, "f", None);
    var s := Files(map[1 := file], map[7 := [1, 2]], 100);
    assert [9][..1] == [9];
    assert Patch([1, 2], 2, [9]) == [1, 2, 9];
    assert DoWrite(s, 1, 0, [9], Grants(1)).0 == Written(s, 1, 2, [9], 0);
  }

  //
  // Seeks and truncations
  //

  /** Seeking to an offset and then reading at the cursor answers as reading at that offset does. */
  lemma SeekThenReadIsPositional(s: Files, fd: Fd, offset: nat, count: nat, host: Host)
    requires Valid(s) && fd in s.entries && offset <= s.limit
    ensures
      var s' := DoLseek(s, fd, offset, SEEK_SET).0;
      && Valid(s') && DoLseek(s, fd, offset, SEEK_SET).1 == LseekResponse(offset)
      && DoRead(s', fd, count, -1, host).1 == DoRead(s, fd, count, offset, host).1
  {
  }

  /** Seeking to an offset and then writing at the cursor answers as writing at that offset does, and leaves
      the same files. */
  lemma SeekThenWriteIsPositional(s: Files, fd: Fd, offset: nat, data: Bytes, host: Host)
    requires Valid(s) && fd in s.entries && offset <= s.limit
    ensures
      var s' := DoLseek(s, fd, offset, SEEK_SET).0;
      && Valid(s')
      && DoWrite(s', fd, -1, data, host).1 == DoWrite(s, fd, offset, data, host).1
      && DoWrite(s', fd, -1, data, host).0.contents == DoWrite(s, fd, offset, data, host).0.contents
  {
  }

  /** Where a descriptor is can be asked without moving it, and gone back to. */
  lemma TellAndReturn(s: Files, fd: Fd, pos: nat)
    requires Valid(s) && fd in s.entries && pos <= s.limit
    ensures
      var at := Serve(s, Lseek(fd, 0, SEEK_CUR)).1.offset;
      && Serve(s, Lseek(fd, 0, SEEK_CUR)).0 == s
      && 0 <= at && Serve(MoveTo(s, fd, pos), Lseek(fd, at, SEEK_SET)).0 == s
  {
    assert MoveTo(s, fd, s.entries[fd].file.pos).entries == s.entries;
    MoveBack(s, fd, pos);
  }

  /** The bytes of a truncated file: those it had, and zeros past its old end. */
  lemma ResizeAt(content: Bytes, n: nat, i: nat)
    requires i < n
    ensures Resize(content, n)[i] == if i < |content| then content[i] else 0
  {
  }

  /** After a truncation every descriptor of the file, and no other, reads the truncated file from where its
      cursor has been all along: nothing at all if that is past the end. */
  lemma ReadAfterTruncate(s: Files, fd: Fd, length: nat, host: Host, fd': Fd, count: nat, n: nat)
    requires Valid(s) && fd in s.entries && fd' in s.entries && !s.entries[fd'].isDir
    requires host.Grants? && length <= s.limit && !s.entries[fd].isDir
    ensures
      var (s', h) := (Serve(s, Truncate(fd, length, host)).0, s.entries[fd'].file);
      var content := s.contents[h.inode];
      var now := if h.inode == s.entries[fd].file.inode then Resize(content, length) else content;
      && Serve(s, Truncate(fd, length, host)).1 == TruncateResponse(0) && s'.entries == s.entries
      && Serve(s', Read(fd', count, -1, Grants(n))).1.data == Slice(now, h.pos, Min(Min(count, MAX_INLINE_READ_DATA), n))
  {
  }

  //
  // The handlers, as they move the cursors
  //

  class HostFiles {
    var entries: map<Fd, Entry>
    var contents: map<nat, Bytes>
    const limit: nat

    ghost function State(): Files
      reads this
    {
      Files(entries, contents, limit)
    }

    constructor (entries: map<Fd, Entry>, contents: map<nat, Bytes>, limit: nat)
      ensures State() == Files(entries, contents, limit)
    {
      this.entries, this.contents, this.limit := entries, contents, limit;
    }

    /** `File::seek` to an absolute position. */
    method SeekTo(fd: Fd, pos: int) returns (ok: bool)
      requires fd in entries
      modifies this`entries
      ensures ok <==> 0 <= pos <= limit
      ensures State() == if ok then MoveTo(old(State()), fd, pos) else old(State())
    {
      ok := 0 <= pos <= limit;
      if ok {
        entries := entries[fd := entries[fd].(file := entries[fd].file.(pos := pos))];
      }
    }

    /** `File::read` at the cursor. */
    method ReadAtCursor(fd: Fd, n: nat, host: Host) returns (ok: bool, data: Bytes)
      requires fd in entries && entries[fd].file.inode in contents
      modifies this`entries
      ensures ok <==> host.Grants?
      ensures ok ==> data == Slice(contents[old(entries[fd].file.inode)], old(entries[fd].file.pos), Min(n, host.n))
      ensures ok ==> State() == MoveTo(old(State()), fd, old(entries[fd].file.pos) + |data|)
      ensures !ok ==> State() == old(State())
    {
      var h := entries[fd].file;
      ok, data := host.Grants?, [];
      if ok {
        data := Slice(contents[h.inode], h.pos, Min(n, host.n));
        entries := entries[fd := entries[fd].(file := h.(pos := h.pos + |data|))];
      }
    }

    /** `File::write` at the cursor, or at the end of a file opened for appending. */
    method WriteAtCursor(fd: Fd, data: Bytes, host: Host) returns (ok: bool, n: nat)
      requires fd in entries && entries[fd].file.inode in contents
      modifies this`entries, this`contents
      ensures
        var start := Target(old(State()), old(entries[fd].file), -1);
        && (ok <==> host.Grants? && start + Min(|data|, host.n) <= limit)
        && (ok ==> n == Min(|data|, host.n) && State() == Written(old(State()), fd, start, data[..n], -1))
        && (!ok ==> State() == old(State()))
    {
      ok, n := false, 0;
      if host.Refuses? {
        return;
      }
      var h := entries[fd].file;
      var start := if h.append then |contents[h.inode]| else h.pos;
      if start + Min(|data|, host.n) > limit {
        return;
      }
      ok, n := true, Min(|data|, host.n);
      contents := contents[h.inode := Patch(contents[h.inode], start, data[..n])];
      if n > 0 {
        entries := entries[fd := entries[fd].(file := h.(pos := start + n))];
      }
    }

    method HandleRead(fd: int, count: nat, offset: int, host: Host) returns (r: Response)
      requires Valid(State())
      modifies this`entries
      ensures (State(), r) == DoRead(old(State()), fd, count, offset, host)
    {
      if fd !in entries {
        return ReadResponse(-1, []);
      }
      if entries[fd].isDir {
        return ReadResponse(-1, []);
      }
      var savedPos := entries[fd].file.pos;
      if offset >= 0 {
        var ok := SeekTo(fd, offset);
        if !ok {
          return ReadResponse(-1, []);
        }
      }
      ghost var s := State();
      var ok, data := ReadAtCursor(fd, Min(count, MAX_INLINE_READ_DATA), host);
      if offset >= 0 {
        if ok { MoveTwice(s, fd, s.entries[fd].file.pos + |data|, savedPos); }
        MoveBack(old(State()), fd, offset);
        var _ := SeekTo(fd, savedPos);
      }
      return if ok then ReadResponse(|data|, data) else ReadResponse(-1, []);
    }

    method HandleWrite(fd: int, offset: int, data: Bytes, host: Host) returns (r: Response)
      requires Valid(State())
      modifies this`entries, this`contents
      ensures (State(), r) == DoWrite(old(State()), fd, offset, data, host)
    {
      if fd !in entries {
        return WriteResponse(-1);
      }
      if entries[fd].isDir {
        return WriteResponse(-1);
      }
      var savedPos := entries[fd].file.pos;
      if offset >= 0 {
        var ok := SeekTo(fd, offset);
        if !ok {
          return WriteResponse(-1);
        }
      }
      var d := data[..Min(|data|, MAX_INLINE_WRITE_DATA)];
      ghost var s := State();
      var ok, n := WriteAtCursor(fd, d, host);
      if ok { assert d[..n] == data[..n]; }
      if offset >= 0 {
        var at := entries[fd].file.pos;
        MoveTwice(s, fd, at, savedPos);
        MoveBack(old(State()), fd, offset);
        var _ := SeekTo(fd, savedPos);
      }
      return if ok then WriteResponse(n) else WriteResponse(-1);
    }

    method HandleLseek(fd: int, offset: int, whence: int) returns (r: Response)
      requires Valid(State())
      modifies this`entries
      ensures (State(), r) == DoLseek(old(State()), fd, offset, whence)
    {
      if fd !in entries {
        return LseekResponse(HOSTFS_ERR_IO);
      }
      var base := 0;
      if whence == SEEK_SET {
        if offset < 0 {
          return LseekResponse(HOSTFS_ERR_INVALID);
        }
      } else if whence == SEEK_CUR {
        base := entries[fd].file.pos;
      } else if whence == SEEK_END {
        base := |contents[entries[fd].file.inode]|;
      } else {
        return LseekResponse(HOSTFS_ERR_INVALID);
      }
      var ok := SeekTo(fd, base + offset);
      return LseekResponse(if ok then base + offset else HOSTFS_ERR_IO);
    }

    /** `File::set_len`: the cursors stay, even those that are now past the end. */
    method SetLen(fd: Fd, length: nat, host: Host) returns (status: int)
      requires fd in entries && entries[fd].file.inode in contents
      modifies this`contents
      ensures status == if host.Refuses? then host.code else if length > limit then HOSTFS_ERR_IO else 0
      ensures
        var n := entries[fd].file.inode;
        contents == if host.Grants? && length <= limit then old(contents)[n := Resize(old(contents)[n], length)] else old(contents)
    {
      if host.Refuses? {
        return host.code;
      }
      if length > limit {
        return HOSTFS_ERR_IO;
      }
      var n := entries[fd].file.inode;
      contents := contents[n := Resize(contents[n], length)];
      return 0;
    }

    method HandleTruncate(fd: int, length: int, host: Host) returns (r: Response)
      requires Valid(State())
      modifies this`contents
      ensures (State(), r) == DoTruncate(old(State()), fd, length, host)
    {
      if length < 0 {
        return TruncateResponse(HOSTFS_ERR_INVALID);
      }
      if fd !in entries {
        return TruncateResponse(HOSTFS_ERR_IO);
      }
      if entries[fd].isDir {
        return TruncateResponse(HOSTFS_ERR_IS_DIR);
      }
      var status := SetLen(fd, length, host);
      return TruncateResponse(status);
    }
  }
}
