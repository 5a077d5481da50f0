/** The inode table of the file-system analyzer, updated in place. */
module InodeTables {
  import opened Common
  import opened FileAccess
  import opened InodeModel

  class InodeTable {
    var table: map<Key, Inode>
    var revTable: map<Inode, set<Path>>
    var openInodes: map<Key, (INodeType, nat)>
    var nextInode: Inode

    ghost function State(): Inodes
      reads this
    {
      Inodes(table, revTable, openInodes, nextInode)
    }

    /** Installs the root under its own name. */
    constructor ()
      ensures State() == INITIAL
    {
      table := map[];
      revTable := map[];
      openInodes := map[];
      nextInode := 1;
      new;
      AddNewEntry((0, "/"), []);
      ghost var none: set<Path> := {};
      assert none + {[]} == {[]};
    }

    method AddNewEntry(key: Key, p: Path)
      modifies this
      ensures State() == AddFresh(old(State()), key, p)
    {
      AddEntry(key, p, nextInode);
      nextInode := nextInode + 1;
    }

    method AddEntry(key: Key, p: Path, inode: Inode)
      modifies this
      ensures State() == InodeModel.AddEntry(old(State()), key, p, inode)
    {
      var pathSet := ToPaths(inode);
      pathSet := pathSet + {p};
      revTable := revTable[inode := pathSet];
      table := table[key := inode];
    }

    method PopEntry(key: Key) returns (inode: Inode)
      requires key in table
      modifies this
      ensures inode == old(table)[key] && State() == old(State()).(table := old(table) - {key})
    {
      inode := table[key];
      table := table - {key};
    }

    method RemoveEntry(key: Key)
      requires RemoveDefined(State(), key)
      modifies this
      ensures State() == InodeModel.RemoveEntry(old(State()), key)
    {
      var pathP := ToPath(key.0);
      if pathP.None? {
        return;
      }
      var absolutePath := pathP.value + [key.1];
      if key !in openInodes {
        var inode := PopEntry(key);
        if inode in revTable {
          var rest := revTable[inode] - {absolutePath};
          revTable := revTable[inode := rest];
          if rest == {} {
            revTable := revTable - {inode};
          }
        }
      } else {
        match openInodes[key].0
        case LINKED => openInodes := openInodes[key := (UNLINKED, openInodes[key].1)];
        case UNLINKED =>
      }
    }

    method GetInode(key: Key) returns (inode: Option<Inode>)
      ensures inode == if key in table then Some(table[key]) else None
    {
      inode := if key in table then Some(table[key]) else None;
    }

    method OpenInode(key: Key)
      modifies this
      ensures State() == InodeModel.OpenInode(old(State()), key)
    {
      if key !in openInodes {
        openInodes := openInodes[key := (LINKED, 1)];
      } else {
        openInodes := openInodes[key := (LINKED, openInodes[key].1 + 1)];
      }
    }

    method CloseInode(key: Key)
      requires CloseDefined(State(), key)
      modifies this
      ensures State() == InodeModel.CloseInode(old(State()), key)
    {
      if key !in openInodes {
        return;
      }
      var inodeType, counter := openInodes[key].0, openInodes[key].1;
      match inodeType
      case LINKED =>
        if counter == 0 {
        } else if counter == 1 {
          openInodes := openInodes - {key};
        } else {
          openInodes := openInodes[key := (LINKED, counter - 1)];
        }
      case UNLINKED =>
        if counter == 0 {
        } else if counter == 1 {
          openInodes := openInodes - {key};
          RemoveEntry(key);
        } else {
          openInodes := openInodes[key := (UNLINKED, counter - 1)];
        }
    }

    method ToInode(p: Path) returns (inode: Inode)
      modifies this
      ensures (State(), inode) == InodeModel.ToInode(old(State()), p)
      decreases |p|
    {
      if p == [] {
        return ROOT;
      }
      var inodeP := ToInode(Parent(p));
      var i := GetInode((inodeP, Filename(p)));
      if i.Some? {
        return i.value;
      }
      AddNewEntry((inodeP, Filename(p)), p);
      inode := nextInode - 1;
    }

    method ToPath(inode: Inode) returns (p: Option<Path>)
      ensures p == InodeModel.ToPath(State(), inode)
    {
      var paths := ToPaths(inode);
      if |paths| == 1 {
        var first :| first in paths;
        assert |paths - {first}| == 0;
        assert paths == {first};
        p := Some(first);
      } else {
        p := None;
      }
    }

    method ToPaths(inode: Inode) returns (paths: set<Path>)
      ensures paths == InodeModel.ToPaths(State(), inode)
    {
      paths := if inode in revTable then revTable[inode] else {};
    }
  }
}
