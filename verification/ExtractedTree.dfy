/**
  The extracted ISO tree as the build mutates it: paths resolve to canonical paths, canonical paths
  name inodes, and several paths may name one inode (symbolic links, hard links).
 */
module ExtractedTree {
  import opened Text
  import opened Utf8

  /** A path relative to the extraction root, with POSIX separators. */
  type Path = string
  type Id = nat

  /** The owner-write bit and every other bit of a mode. */
  datatype Mode = Mode(w: bool, rest: nat)

  datatype Inode = Inode(data: seq<Byte>, mode: Mode)

  /**
    One state of the tree.  `canon` is `resolve_within`: nothing when the path leaves the root.
    `outside` are files that links lead to outside the root, `names` the links a walk comes across.
   */
  datatype Fs = Fs(canon: Path -> Option<Path>, outside: map<Path, seq<Byte>>, names: set<Path>,
                   link: map<Path, Id>, nodes: map<Id, Inode>, next: Id)
  {
    ghost predicate Valid() {
      && (forall c :: c in link ==> link[c] in nodes && canon(c) == Some(c))
      && (forall p :: canon(p).Some? ==> canon(canon(p).value) == canon(p))
      && (forall i :: i in nodes ==> i < next)
    }

    predicate IsFile(p: Path) {
      match canon(p)
      case Some(c) => c in link && link[c] in nodes
      case None => p in outside
    }

    function Read(p: Path): seq<Byte>
      requires IsFile(p)
    {
      match canon(p)
      case Some(c) => nodes[link[c]].data
      case None => outside[p]
    }

    function IdOf(p: Path): Id
      requires IsFile(p) && canon(p).Some?
    {
      link[canon(p).value]
    }

    /** Every file a recursive walk of the root comes across. */
    function Listed(): (paths: set<Path>)
      ensures forall p :: p in paths ==> IsFile(p)
    {
      set p | p in link.Keys + names && IsFile(p)
    }

    /** The write bit of an existing file; a new file can always be created. */
    predicate Writable(p: Path) {
      IsFile(p) && canon(p).Some? ==> nodes[IdOf(p)].mode.w
    }

    /** Replace the bytes of an existing file inside the root. */
    function Put(p: Path, data: seq<Byte>): Fs
      requires IsFile(p) && canon(p).Some?
    {
      this.(nodes := nodes[IdOf(p) := nodes[IdOf(p)].(data := data)])
    }

    /** Write a file inside the root, creating it if it is not there. */
    function Write(p: Path, data: seq<Byte>): Fs
      requires canon(p).Some?
    {
      if IsFile(p) then Put(p, data)
      else
        var inode := Inode(data, Mode(true, 0));
        this.(link := link[canon(p).value := next], nodes := nodes[next := inode], next := next + 1)
    }
  }

  class Tree {
    const canon: Path -> Option<Path>
    const outside: map<Path, seq<Byte>>
    const names: set<Path>
    var link: map<Path, Id>
    var nodes: map<Id, Inode>
    var next: Id

    constructor (fs: Fs)
      ensures View() == fs
    {
      canon, outside, names, link, nodes, next := fs.canon, fs.outside, fs.names, fs.link, fs.nodes, fs.next;
    }

    ghost function View(): Fs
      reads this
    {
      Fs(canon, outside, names, link, nodes, next)
    }

    predicate IsFile(p: Path)
      reads this
      ensures IsFile(p) <==> View().IsFile(p)
    {
      match canon(p)
      case Some(c) => c in link && link[c] in nodes
      case None => p in outside
    }

    function Read(p: Path): (data: seq<Byte>)
      requires IsFile(p)
      reads this
      ensures data == View().Read(p)
    {
      match canon(p)
      case Some(c) => nodes[link[c]].data
      case None => outside[p]
    }

    function Listed(): (paths: set<Path>)
      reads this
      ensures paths == View().Listed() && forall p :: p in paths ==> IsFile(p)
    {
      set p | p in link.Keys + names && IsFile(p)
    }

    method Chmod(p: Path, mode: Mode)
      requires IsFile(p) && canon(p).Some?
      modifies this`nodes
      ensures var id := link[canon(p).value]; nodes == old(nodes)[id := old(nodes)[id].(mode := mode)]
    {
      var id := link[canon(p).value];
      nodes := nodes[id := nodes[id].(mode := mode)];
    }

    /** Write a file: refused without the write bit, and it may fail half way and leave other bytes. */
    method WriteBytes(p: Path, data: seq<Byte>, fault: Option<seq<Byte>>) returns (ok: bool)
      requires canon(p).Some?
      modifies this
      ensures ok == (fault.None? && old(View()).Writable(p))
      ensures View() ==
        if old(View()).Writable(p) then old(View()).Write(p, if fault.Some? then fault.value else data)
        else old(View())
    {
      var written := if fault.Some? then fault.value else data;
      var c := canon(p).value;
      if IsFile(p) && !nodes[link[c]].mode.w {
        return false;
      }
      if IsFile(p) {
        nodes := nodes[link[c] := nodes[link[c]].(data := written)];
      } else {
        link, nodes, next := link[c := next], nodes[next := Inode(written, Mode(true, 0))], next + 1;
      }
      ok := fault.None?;
    }

    /**
      `with _temporarily_owner_writable(path): path.write_text(...)`: make the file writable if it
      is not, write, and restore the exact mode whether or not the write succeeds.
     */
    method WriteGuarded(p: Path, data: seq<Byte>, fault: Option<seq<Byte>>) returns (ok: bool)
      requires IsFile(p) && canon(p).Some?
      modifies this
      ensures ok == fault.None?
      ensures View() == old(View()).Put(p, if fault.Some? then fault.value else data)
    {
      var id := link[canon(p).value];
      var original := nodes[id].mode;
      if !original.w {
        Chmod(p, original.(w := true));
      }
      ok := WriteBytes(p, data, fault);
      Chmod(p, original);
    }
  }

  // ----- frame facts -----

  lemma PutKeepsFiles(fs: Fs, p: Path, data: seq<Byte>)
    requires fs.Valid() && fs.IsFile(p) && fs.canon(p).Some?
    ensures fs.Put(p, data).Valid()
    ensures forall q :: fs.Put(p, data).IsFile(q) == fs.IsFile(q)
    ensures fs.Put(p, data).Listed() == fs.Listed()
  {
    forall q ensures fs.Put(p, data).IsFile(q) == fs.IsFile(q) {}
  }

  /** What a write does to the bytes read through any other path: only aliases see it. */
  lemma PutReads(fs: Fs, p: Path, data: seq<Byte>, q: Path)
    requires fs.Valid() && fs.IsFile(p) && fs.canon(p).Some? && fs.IsFile(q)
    ensures fs.Put(p, data).IsFile(q)
    ensures fs.Put(p, data).Read(q) ==
      if fs.canon(q).Some? && fs.IdOf(q) == fs.IdOf(p) then data else fs.Read(q)
  {
  }

  /** Every inode keeps its mode. */
  ghost predicate SameModes(a: Fs, b: Fs) {
    a.nodes.Keys == b.nodes.Keys && forall i :: i in a.nodes ==> a.nodes[i].mode == b.nodes[i].mode
  }
}
