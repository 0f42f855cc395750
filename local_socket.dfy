/** The listening socket and its staged builder. The filesystem is a map
    from the paths that exist to their permissions (None: whatever the
    operating system gave the entry), and each system call that can fail
    has a fault flag fixed in advance. */
module LocalSocket {
  import opened Errors

  newtype u32 = x: int | 0 <= x < 0x1_0000_0000

  /** `std::fs::Permissions` on Unix: the mode bits. */
  datatype Permissions = Permissions(mode: u32)

  /** `Permissions::from_mode`: the mode is kept as given. */
  function FromMode(mode: u32): (p: Permissions)
    ensures p.mode == mode
  {
    Permissions(mode)
  }

  /** A bound `UnixListener`; only its blocking mode is modelled. */
  class Listener {
    var nonblocking: bool
    /** How many `set_nonblocking` calls have been made. */
    var modeCalls: nat
    /** The ordinal of the `set_nonblocking` call that reports an error
        (0: none does). */
    const failingModeCall: nat

    /** A freshly bound listener, blocking. */
    constructor (failingModeCall: nat)
      ensures !nonblocking && modeCalls == 0 && this.failingModeCall == failingModeCall
    {
      nonblocking := false;
      modeCalls := 0;
      this.failingModeCall := failingModeCall;
    }

    /** `UnixListener::set_nonblocking`. */
    method SetNonblocking(nonblocking: bool) returns (r: Outcome)
      modifies this
      ensures modeCalls == old(modeCalls) + 1
      ensures r == if modeCalls == failingModeCall then Fail(IoError) else Pass
      ensures this.nonblocking == if r.Fail? then old(this.nonblocking) else nonblocking
    {
      modeCalls := modeCalls + 1;
      if modeCalls == failingModeCall {
        return Fail(IoError);
      }
      this.nonblocking := nonblocking;
      r := Pass;
    }
  }

  /** The part of the filesystem the builder touches. */
  class FileSystem {
    /** The paths that exist, with their permissions. */
    var entries: map<string, Option<Permissions>>
    const removeFails: bool
    /** Whether `bind` fails even on a free path. */
    const bindFails: bool
    const chmodFails: bool
    /** Which `set_nonblocking` call fails on the listeners that bind
        returns (0: none; 1: the one `build` makes). */
    const failingModeCall: nat

    constructor (entries: map<string, Option<Permissions>>, removeFails: bool, bindFails: bool, chmodFails: bool, failingModeCall: nat)
      ensures this.entries == entries && this.removeFails == removeFails && this.bindFails == bindFails
      ensures this.chmodFails == chmodFails && this.failingModeCall == failingModeCall
    {
      this.entries := entries;
      this.removeFails := removeFails;
      this.bindFails := bindFails;
      this.chmodFails := chmodFails;
      this.failingModeCall := failingModeCall;
    }

    /** Whether the `set_nonblocking` call of `build` fails. */
    predicate BuildModeFails()
    {
      failingModeCall == 1
    }

    /** `metadata(path).is_ok()`: whether something exists at `path`. */
    method Metadata(path: string) returns (exists_: bool)
      ensures exists_ <==> path in entries
    {
      exists_ := path in entries;
    }

    /** `remove_file`: fails on a missing path or when removal fails. */
    method RemoveFile(path: string) returns (r: Outcome)
      modifies this
      ensures r == if path !in old(entries) || removeFails then Fail(IoError) else Pass
      ensures entries == if r.Pass? then old(entries) - {path} else old(entries)
    {
      if path !in entries || removeFails {
        return Fail(IoError);
      }
      entries := entries - {path};
      r := Pass;
    }

    /** `UnixListener::bind`: creates the socket file, and fails when the
        path is taken (address in use) or when binding fails. */
    method Bind(path: string) returns (r: Result<Listener>)
      modifies this
      ensures r.Failure? <==> path in old(entries) || bindFails
      ensures r.Failure? ==> r.error == BindError && entries == old(entries)
      ensures r.Success? ==> fresh(r.value) && !r.value.nonblocking
      ensures r.Success? ==> r.value.modeCalls == 0 && r.value.failingModeCall == failingModeCall
      ensures r.Success? ==> entries == old(entries)[path := None]
    {
      if path in entries || bindFails {
        return Failure(BindError);
      }
      var listener := new Listener(failingModeCall);
      entries := entries[path := None];
      r := Success(listener);
    }

    /** `set_permissions`: fails on a missing path or when chmod fails. */
    method SetPermissions(path: string, permissions: Permissions) returns (r: Outcome)
      modifies this
      ensures r == if path !in old(entries) || chmodFails then Fail(IoError) else Pass
      ensures entries == if r.Pass? then old(entries)[path := Some(permissions)] else old(entries)
    {
      if path !in entries || chmodFails {
        return Fail(IoError);
      }
      entries := entries[path := Some(permissions)];
      r := Pass;
    }
  }

  /** `Socket`: the bound path, its listener, and the configuration it was
      built with. */
  class Socket {
    var path: string
    var listener: Listener
    var nonblocking: bool
    var permissions: Option<Permissions>

    constructor (path: string, listener: Listener, nonblocking: bool, permissions: Option<Permissions>)
      ensures this.path == path && this.listener == listener
      ensures this.nonblocking == nonblocking && this.permissions == permissions
    {
      this.path := path;
      this.listener := listener;
      this.nonblocking := nonblocking;
      this.permissions := permissions;
    }

    /** `Socket::set_nonblocking`: reconfigures the listener only; the stored
        `nonblocking` field keeps the value it was built with. */
    method SetNonblocking(nonblocking: bool) returns (r: Outcome)
      modifies listener
      ensures listener.modeCalls == old(listener.modeCalls) + 1
      ensures r == if listener.modeCalls == listener.failingModeCall then Fail(IoError) else Pass
      ensures listener.nonblocking == if r.Pass? then nonblocking else old(listener.nonblocking)
      ensures this.nonblocking == old(this.nonblocking)
    {
      r := listener.SetNonblocking(nonblocking);
    }
  }

  // ---- the staged builder ----

  /** `SocketBuilder`: every field is unset until its setter is called. */
  datatype SocketBuilder = SocketBuilder(
    path: Option<string>,
    listener: Option<Listener>,
    nonblocking: Option<bool>,
    permissions: Option<Permissions>)

  /** `SocketBuilder::new`: nothing staged. */
  function NewBuilder(): (b: SocketBuilder)
    ensures b.path.None? && b.listener.None? && b.nonblocking.None? && b.permissions.None?
  {
    SocketBuilder(None, None, None, None)
  }

  function WithPath(b: SocketBuilder, path: string): SocketBuilder {
    SocketBuilder(Some(path), b.listener, b.nonblocking, b.permissions)
  }

  function Nonblocking(b: SocketBuilder, nonblocking: bool): SocketBuilder {
    SocketBuilder(b.path, b.listener, Some(nonblocking), b.permissions)
  }

  function WithPermissions(b: SocketBuilder, mode: u32): SocketBuilder {
    SocketBuilder(b.path, b.listener, b.nonblocking, Some(FromMode(mode)))
  }

  /** The blocking mode `build` applies: the staged one, blocking when none. */
  function ModeOf(b: SocketBuilder): (nonblocking: bool)
    ensures b.nonblocking.None? ==> !nonblocking
    ensures b.nonblocking.Some? ==> nonblocking == b.nonblocking.value
  {
    match b.nonblocking
    case Some(v) => v
    case None => false
  }

  /** Each setter stages its own field and keeps the other three. */
  lemma SettersStageOneField(b: SocketBuilder, path: string, nonblocking: bool, mode: u32)
    ensures WithPath(b, path) == b.(path := Some(path))
    ensures Nonblocking(b, nonblocking) == b.(nonblocking := Some(nonblocking))
    ensures WithPermissions(b, mode) == b.(permissions := Some(Permissions(mode)))
  {
  }

  /** A later call of a setter overrides an earlier one. */
  lemma LaterSetterWins(b: SocketBuilder, p1: string, p2: string, n1: bool, n2: bool, m1: u32, m2: u32)
    ensures WithPath(WithPath(b, p1), p2) == WithPath(b, p2)
    ensures Nonblocking(Nonblocking(b, n1), n2) == Nonblocking(b, n2)
    ensures WithPermissions(WithPermissions(b, m1), m2) == WithPermissions(b, m2)
  {
  }

  /** Setters of different fields can be called in either order. */
  lemma SettersCommute(b: SocketBuilder, path: string, nonblocking: bool, mode: u32)
    ensures WithPath(Nonblocking(b, nonblocking), path) == Nonblocking(WithPath(b, path), nonblocking)
    ensures WithPath(WithPermissions(b, mode), path) == WithPermissions(WithPath(b, path), mode)
    ensures Nonblocking(WithPermissions(b, mode), nonblocking) == WithPermissions(Nonblocking(b, nonblocking), mode)
  {
  }

  // ---- build ----

  /** How `build` ends: the error that stopped it, if any, and the
      filesystem it leaves. */
  datatype BuildEnd = BuildEnd(error: Option<Error>, entries: map<string, Option<Permissions>>)

  /** The steps of `build` on the filesystem `entries`, with the given
      faults: no path staged, then remove a stale entry, bind, chmod when
      permissions are staged, set the blocking mode; each step that fails
      ends it. */
  function BuildSpec(b: SocketBuilder, entries: map<string, Option<Permissions>>,
                     removeFails: bool, bindFails: bool, chmodFails: bool, modeFails: bool): BuildEnd
  {
    if b.path.None? then BuildEnd(Some(ConfigError), entries)
    else
      var path := b.path.value;
      if path in entries && removeFails then BuildEnd(Some(BindError), entries)
      else
        var cleared := entries - {path};
        if bindFails then BuildEnd(Some(BindError), cleared)
        else
          var bound := cleared[path := None];
          if b.permissions.Some? && chmodFails then BuildEnd(Some(PermissionError), bound)
          else
            var chmodded := if b.permissions.Some? then bound[path := b.permissions] else bound;
            if modeFails then BuildEnd(Some(ConfigError), chmodded)
            else BuildEnd(None, chmodded)
  }

  /** `SocketBuilder::build` over the filesystem `fs`. */
  method Build(b: SocketBuilder, fs: FileSystem) returns (r: Result<Socket>)
    modifies fs
    ensures var spec := BuildSpec(b, old(fs.entries), fs.removeFails, fs.bindFails, fs.chmodFails, fs.BuildModeFails());
      && fs.entries == spec.entries
      && (r.Failure? <==> spec.error.Some?)
      && (r.Failure? ==> r.error == spec.error.value)
    ensures r.Success? ==>
      && fresh(r.value) && fresh(r.value.listener)
      && r.value.path == b.path.value
      && r.value.permissions == b.permissions
      && r.value.nonblocking == ModeOf(b)
      && r.value.listener.nonblocking == ModeOf(b)
      && r.value.listener.modeCalls == 1 && r.value.listener.failingModeCall == fs.failingModeCall
  {
    if b.path.None? {
      return Failure(ConfigError);
    }
    var path := b.path.value;
    var present := fs.Metadata(path);
    if present {
      var removed := fs.RemoveFile(path);
      if removed.Fail? {
        return Failure(BindError);
      }
    }
    assert fs.entries == old(fs.entries) - {path};
    var bound := fs.Bind(path);
    if bound.Failure? {
      return Failure(bound.error);
    }
    var listener := bound.value;
    if b.permissions.Some? {
      var chmodded := fs.SetPermissions(path, b.permissions.value);
      if chmodded.Fail? {
        return Failure(PermissionError);
      }
    }
    var nonblocking := ModeOf(b);
    var moded := listener.SetNonblocking(nonblocking);
    if moded.Fail? {
      return Failure(ConfigError);
    }
    var socket := new Socket(path, listener, nonblocking, b.permissions);
    r := Success(socket);
  }

  // ---- properties of build ----

  /** Without a staged path, `build` fails before touching the filesystem. */
  lemma BuildNeedsPath(b: SocketBuilder, entries: map<string, Option<Permissions>>,
                       removeFails: bool, bindFails: bool, chmodFails: bool, modeFails: bool)
    requires b.path.None?
    ensures BuildSpec(b, entries, removeFails, bindFails, chmodFails, modeFails) == BuildEnd(Some(ConfigError), entries)
  {
  }

  /** `build` succeeds exactly when a path is staged and no step it takes
      fails; a stale entry never makes bind fail, because it is removed
      first. */
  lemma BuildSucceeds(b: SocketBuilder, entries: map<string, Option<Permissions>>,
                      removeFails: bool, bindFails: bool, chmodFails: bool, modeFails: bool)
    ensures var end := BuildSpec(b, entries, removeFails, bindFails, chmodFails, modeFails);
      end.error.None? <==>
        && b.path.Some?
        && !(b.path.value in entries && removeFails)
        && !bindFails
        && !(b.permissions.Some? && chmodFails)
        && !modeFails
  {
  }

  /** After a successful build the path holds a fresh socket entry, with the
      staged permissions when there are some and the operating system's
      otherwise, and every other path is as it was. */
  lemma BuildLeavesSocketEntry(b: SocketBuilder, entries: map<string, Option<Permissions>>,
                               removeFails: bool, bindFails: bool, chmodFails: bool, modeFails: bool)
    requires BuildSpec(b, entries, removeFails, bindFails, chmodFails, modeFails).error.None?
    ensures var end := BuildSpec(b, entries, removeFails, bindFails, chmodFails, modeFails);
      && b.path.value in end.entries
      && end.entries[b.path.value] == b.permissions
      && (forall q :: q != b.path.value ==> (q in end.entries <==> q in entries))
      && (forall q :: q != b.path.value && q in entries ==> end.entries[q] == entries[q])
  {
  }

  /** Whatever happens, `build` changes no path but the staged one. */
  lemma BuildTouchesOnlyItsPath(b: SocketBuilder, entries: map<string, Option<Permissions>>,
                                removeFails: bool, bindFails: bool, chmodFails: bool, modeFails: bool)
    requires b.path.Some?
    ensures var end := BuildSpec(b, entries, removeFails, bindFails, chmodFails, modeFails);
      && (forall q :: q != b.path.value ==> (q in end.entries <==> q in entries))
      && (forall q :: q != b.path.value && q in entries ==> end.entries[q] == entries[q])
  {
  }
}
