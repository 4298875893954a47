/**
 * The filesystem the tracker moves files through, as a map from absolute
 * paths to entries. Only the effects of the library calls the tracker makes
 * are modelled: `shutil.move`, `Path.unlink`, `Path.symlink_to`,
 * `Path.mkdir(parents=True, exist_ok=True)`, and the `exists`, `is_file` and
 * `is_symlink` tests.
 */
module FileSystem {
  import opened Wrappers
  import opened Paths

  datatype Entry = File(content: seq<bv8>) | Symlink(target: Path) | Dir

  /** The root always exists and is a directory. */
  predicate IsDirAt(entries: map<Path, Entry>, p: Path) {
    p == [] || (p in entries && entries[p].Dir?)
  }

  /** Every entry hangs below a directory: the map is a tree. */
  ghost predicate TreeShaped(entries: map<Path, Entry>) {
    forall p {:trigger Parent(p)} :: p in entries ==> p != [] && IsDirAt(entries, Parent(p))
  }

  /** The non-empty prefixes of `p`: the directories `mkdir(parents=True)` creates. */
  function Prefixes(p: Path): set<Path> {
    set k | 1 <= k <= |p| :: p[..k]
  }

  /** Follows symlinks on the last component, at most `fuel` times. */
  function Resolve(entries: map<Path, Entry>, p: Path, fuel: nat): Option<Entry>
    decreases fuel
  {
    if p !in entries then None
    else match entries[p]
      case Symlink(target) => if fuel == 0 then None else Resolve(entries, target, fuel - 1)
      case e => Some(e)
  }

  /** When `shutil.move(src, dst)` succeeds for a file or link. */
  predicate CanMove(entries: map<Path, Entry>, src: Path, dst: Path) {
    src in entries && !entries[src].Dir? &&
    dst != [] && IsDirAt(entries, Parent(dst)) &&
    (dst !in entries || !entries[dst].Dir?)
  }

  /** The entry at `src` now sits at `dst`, replacing whatever was there. */
  function Moved(entries: map<Path, Entry>, src: Path, dst: Path): map<Path, Entry>
    requires src in entries
  {
    (entries - {src})[dst := entries[src]]
  }

  /** The tree after `mkdir(parents=True, exist_ok=True)` of `p` succeeds: every prefix is a directory. */
  function WithDirs(entries: map<Path, Entry>, p: Path): map<Path, Entry> {
    entries + map q | q in Prefixes(p) :: Dir
  }

  /** When a file or link at `link` can be replaced by a new link: no directory in the way, and its folder exists. */
  predicate CanReplaceLink(entries: map<Path, Entry>, link: Path) {
    (link !in entries || !entries[link].Dir?) && IsDirAt(entries, Parent(link))
  }

  class FileSystem {
    var entries: map<Path, Entry>

    ghost predicate Valid()
      reads this
    {
      TreeShaped(entries)
    }

    constructor ()
      ensures Valid() && entries == map[]
    {
      entries := map[];
    }

    /** `Path.exists()`: follows symlinks; a dangling or looping link does not exist. */
    predicate Exists(p: Path)
      reads this
    {
      Resolve(entries, p, |entries|).Some?
    }

    /** `Path.is_file()`: follows symlinks. */
    predicate IsFile(p: Path)
      reads this
    {
      Resolve(entries, p, |entries|).Some? && Resolve(entries, p, |entries|).value.File?
    }

    /** `Path.is_symlink()`: does not follow. */
    predicate IsSymlink(p: Path)
      reads this
    {
      p in entries && entries[p].Symlink?
    }

    /** Whatever sits at `p` is either an existing target or a link (live or dangling) -- or nothing. */
    lemma ExistsOrSymlinkIffPresent(p: Path)
      ensures Exists(p) || IsSymlink(p) <==> p in entries
    {
    }

    /**
     * `shutil.move(src, dst)` for a file or link: renames it, replacing a
     * non-directory at `dst`. Fails, changing nothing, when the source is
     * missing or a directory, the destination's parent is not a directory,
     * or the destination is a directory.
     */
    method Move(src: Path, dst: Path) returns (ok: bool)
      requires Valid()
      modifies this
      ensures Valid()
      ensures ok <==> CanMove(old(entries), src, dst)
      ensures ok ==> entries == Moved(old(entries), src, dst)
      ensures !ok ==> entries == old(entries)
    {
      ok := CanMove(entries, src, dst);
      if ok {
        var before := entries;
        entries := Moved(entries, src, dst);
        forall q | q in entries ensures q != [] && IsDirAt(entries, Parent(q)) {
          if q != dst {
            assert q in before && IsDirAt(before, Parent(q));
          } else {
            assert IsDirAt(before, Parent(dst));
          }
        }
      }
    }

    /** `Path.unlink()`: removes a file or link; a directory or a missing entry is an error. */
    method Unlink(p: Path) returns (ok: bool)
      requires Valid()
      modifies this
      ensures Valid()
      ensures ok <==> p in old(entries) && !old(entries)[p].Dir?
      ensures ok ==> entries == old(entries) - {p}
      ensures !ok ==> entries == old(entries)
    {
      ok := p in entries && !entries[p].Dir?;
      if ok {
        var before := entries;
        entries := entries - {p};
        forall q | q in entries ensures q != [] && IsDirAt(entries, Parent(q)) {
          assert q in before && IsDirAt(before, Parent(q));
        }
      }
    }

    /** `link.symlink_to(target)`: fails if anything is at `link` or its parent is not a directory. */
    method SymlinkTo(link: Path, target: Path) returns (ok: bool)
      requires Valid()
      modifies this
      ensures Valid()
      ensures ok <==> link != [] && link !in old(entries) && IsDirAt(old(entries), Parent(link))
      ensures ok ==> entries == old(entries)[link := Symlink(target)]
      ensures !ok ==> entries == old(entries)
    {
      ok := link != [] && link !in entries && IsDirAt(entries, Parent(link));
      if ok {
        var before := entries;
        entries := entries[link := Symlink(target)];
        forall q | q in entries ensures q != [] && IsDirAt(entries, Parent(q)) {
          if q != link {
            assert q in before && IsDirAt(before, Parent(q));
          }
        }
      }
    }

    /**
     * `p.mkdir(parents=True, exist_ok=True)`: makes `p` and its missing
     * ancestors directories. Fails, creating nothing, when some prefix of `p`
     * is a file or a link.
     */
    method MakeDirs(p: Path) returns (ok: bool)
      requires Valid()
      modifies this
      ensures Valid()
      ensures ok <==> forall q :: q in Prefixes(p) && q in old(entries) ==> old(entries)[q].Dir?
      ensures ok ==> entries == WithDirs(old(entries), p)
      ensures ok ==> IsDirAt(entries, p)
      ensures !ok ==> entries == old(entries)
      ensures forall q :: q in old(entries) ==> q in entries && entries[q] == old(entries)[q]
      ensures forall q :: q in entries && q !in old(entries) ==> entries[q].Dir?
    {
      ok := forall q :: q in Prefixes(p) && q in entries ==> entries[q].Dir?;
      if ok {
        var before := entries;
        var made := map q | q in Prefixes(p) :: Dir;
        entries := entries + made;
        forall q | q in entries ensures q != [] && IsDirAt(entries, Parent(q)) {
          if q in made {
            var k :| 1 <= k <= |p| && q == p[..k];
            if k > 1 {
              assert Parent(q) == p[..k - 1];
              assert Parent(q) in made;
            }
          } else {
            assert q in before && IsDirAt(before, Parent(q));
          }
        }
        if p != [] {
          assert p[..|p|] == p;
          assert p in made;
        }
      }
    }
  }
}
