/** Replacing the launcher while it runs, on a system that renames a running
    image but does not replace it, and repairing a replacement that was cut. */
module LauncherFile {
  import opened Bytes

  type Image = string

  /** What stands at a name: nothing, a regular file, a link, or a directory. */
  datatype Slot = Empty | Plain(image: Image) | Link | Directory

  const MAX_LAUNCHER := 64 * 1024 * 1024

  ghost predicate Highest(asides: map<nat, Slot>, n: nat) {
    n in asides && forall m: nat :: m in asides ==> m <= n
  }

  ghost predicate Newest(asides: map<nat, Slot>, slot: Slot) {
    exists n: nat :: Highest(asides, n) && asides[n] == slot
  }

  /** The directory the launcher is in. `luck` says which of the operations on it
      succeed; a crash is a point from which on none does. What is moved aside is
      numbered from 1; the listing passes over directories. */
  class Folder {
    var path: Slot
    var tmp: Option<Image>
    var asides: map<nat, Slot>
    var dirs: set<nat>             // the numbers that directories have
    var staged: Option<Image>      // the launcher waiting to be swapped in
    var now: nat
    const luck: nat -> bool
    ghost var last: Slot           // what was found or last installed at the name

    /** What was last installed is at the name, or the name is empty and it is the
        newest thing listed aside. Only a directory found at the name can be aside
        and not be listed. */
    ghost predicate Valid()
      reads this
    {
      && asides.Keys !! dirs
      && (forall n: nat :: n in asides ==> asides[n].Plain? || asides[n].Link?)
      && (path != Empty ==> last == path)
      && (path == Empty && last == Empty ==> asides == map[])
      && (path == Empty && last.Directory? ==> dirs != {})
      && (path == Empty && (last.Plain? || last.Link?) ==> Newest(asides, last))
    }

    /** The directory that was found at the name is still aside. */
    ghost predicate Buried()
      reads this
    {
      path == Empty && last == Directory
    }

    /** The number that comes next is not a directory's. */
    ghost predicate NextIsFree()
      reads this
    {
      && (asides == map[] ==> 1 !in dirs)
      && (forall n: nat :: Highest(asides, n) ==> n + 1 !in dirs)
    }

    constructor (path: Slot, asides: map<nat, Slot>, dirs: set<nat>, luck: nat -> bool)
      requires asides.Keys !! dirs && (path == Empty ==> asides == map[])
      requires forall n: nat :: n in asides ==> asides[n].Plain? || asides[n].Link?
      ensures Valid() && this.path == path && this.asides == asides && this.dirs == dirs
      ensures this.luck == luck && now == 0 && staged.None?
    {
      this.path, this.tmp, this.asides, this.dirs, this.staged, this.now := path, None, asides, dirs, None, 0;
      this.luck := luck;
      this.last := path;
    }

    /** Whether the next operation succeeds. */
    method Try() returns (ok: bool)
      modifies this`now
      ensures ok == luck(old(now)) && now == old(now) + 1
    {
      ok := luck(now);
      now := now + 1;
    }

    /** The numbers of the images moved aside, highest first. */
    method Asides() returns (found: seq<nat>)
      ensures forall n: nat :: n in found <==> n in asides
      ensures forall i, j :: 0 <= i < j < |found| ==> found[i] > found[j]
    {
      found := [];
      var todo := asides.Keys;
      while todo != {}
        invariant forall n: nat :: n in asides <==> n in found || n in todo
        invariant forall i, j :: 0 <= i < j < |found| ==> found[i] > found[j]
        invariant forall n, i :: n in todo && 0 <= i < |found| ==> n < found[i]
        decreases |todo|
      {
        var top := Top(todo);
        found := found + [top];
        todo := todo - {top};
      }
    }

    /** Writes the new image aside in full before anything else moves. A write
        that fails, or is cut, can leave any part of it. */
    method WriteTmp(data: Image) returns (ok: bool)
      modifies this`tmp, this`now
      ensures ok ==> tmp == Some(data)
      ensures now >= old(now) && (luck(old(now)) ==> ok)
    {
      var n :| 0 <= n <= |data|;
      tmp := Some(data[..n]);
      ok := Try();
      if ok {
        tmp := Some(data);
      } else {
        DropTmp();
      }
    }

    method DropTmp()
      modifies this`tmp, this`now
      ensures now == old(now) + 1 && (luck(old(now)) ==> tmp.None?)
    {
      var gone := Try();
      if gone {
        tmp := None;
      }
    }

    /** Moves what is at the name to the number above all that are listed; a
        directory that has it is in the way. */
    method MoveAside() returns (aside: Option<nat>)
      requires Valid() && path != Empty
      modifies this`path, this`asides, this`dirs, this`now
      ensures Valid() && now == old(now) + 1
      ensures aside.None? ==> path == old(path) && asides == old(asides) && dirs == old(dirs)
      ensures aside.Some? <==> luck(old(now)) && old(NextIsFree())
      ensures aside.Some? ==> Moved(aside.value) && aside.value !in old(asides) && aside.value !in old(dirs)
      ensures aside.Some? && old(path) == Directory ==>
                Buried() && asides == old(asides) && aside.value !in old(dirs) && dirs == old(dirs) + {aside.value}
      ensures aside.Some? && old(path) != Directory ==>
                asides == old(asides)[aside.value := old(path)] && dirs == old(dirs)
    {
      var found := Asides();
      var n := if |found| > 0 then found[0] + 1 else 1;
      assert forall m: nat :: m in asides ==> m < n by {
        forall m: nat | m in asides
          ensures m < n
        {
          var i :| 0 <= i < |found| && found[i] == m;
        }
      }
      assert NextIsFree() <==> n !in dirs by {
        if |found| == 0 {
          assert asides == map[];
        } else {
          assert found[0] in asides;
          assert Highest(asides, found[0]);
        }
      }
      var ok := Try();
      if !ok || n in dirs {
        return None;
      }
      if path == Directory {
        dirs, path := dirs + {n}, Empty;
      } else {
        asides, path := asides[n := path], Empty;
        assert Highest(asides, n);
      }
      return Some(n);
    }

    /** Installs data at the launcher's name. Whatever fails, what was last at the
        name is there or is the newest image aside; a directory may stay aside. */
    method ReplaceAside(data: Image) returns (ok: bool)
      requires Valid()
      modifies this`path, this`tmp, this`asides, this`dirs, this`now, this`last
      ensures Valid() && now >= old(now)
      ensures ok ==> path == Plain(data) == last
      ensures last == old(last) || (last == Plain(data) == path)
      ensures (forall n: nat :: n >= old(now) ==> luck(n)) && (old(path) == Empty || old(NextIsFree())) ==>
                ok && tmp.None? && asides == old(asides) && dirs == old(dirs)
    {
      ok := WriteTmp(data);
      if !ok {
        return;
      }
      var aside := None;
      if path != Empty {
        aside := MoveAside();
        if aside.None? {
          DropTmp();
          return false;
        }
      }
      ok := PutInPlace(data, aside);
    }

    /** What was just moved aside, under this number: an image, or a directory. */
    ghost predicate Moved(n: nat)
      reads this
    {
      path == Empty && if n in dirs then last == Directory else Highest(asides, n) && asides[n] == last != Empty
    }

    /** Renames the new launcher to the empty name, or what was moved aside back to
        it; and what was moved aside goes, if it will, once it has a successor. */
    method PutInPlace(data: Image, aside: Option<nat>) returns (ok: bool)
      requires Valid() && path == Empty && tmp == Some(data) && (aside.Some? ==> Moved(aside.value))
      modifies this`path, this`tmp, this`asides, this`dirs, this`now, this`last
      ensures Valid() && now >= old(now)
      ensures ok ==> path == Plain(data) == last
      ensures last == old(last) || (last == Plain(data) == path)
      ensures (forall n: nat :: n >= old(now) ==> luck(n)) ==>
                && ok && tmp.None?
                && (if aside.Some? then asides == old(asides) - {aside.value} && dirs == old(dirs) - {aside.value}
                    else asides == old(asides) && dirs == old(dirs))
    {
      ok := Try();
      if !ok {
        if aside.Some? {
          var back := Try();
          if !back {
            return;
          }
          BringBack(aside.value);
        }
        DropTmp();
        return;
      }
      path, tmp, last := Plain(tmp.value), None, Plain(data);
      ok := Try();
      if !ok {
        return;
      }
      if aside.Some? {
        var gone := Try();
        if gone {
          asides, dirs := asides - {aside.value}, dirs - {aside.value};
        }
      }
    }

    /** Renames what was just moved aside back to the name. */
    method BringBack(n: nat)
      requires Valid() && Moved(n)
      modifies this`path, this`asides, this`dirs
      ensures Valid() && path == last
    {
      if n in dirs {
        dirs, path := dirs - {n}, Directory;
      } else {
        path := asides[n];
        asides := asides - {n};
      }
    }

    /** Where the system can replace a running image, one rename is all. */
    method ReplaceByRename(data: Image) returns (ok: bool)
      requires Valid()
      modifies this`path, this`tmp, this`now, this`last
      ensures Valid() && now >= old(now)
      ensures ok ==> path == Plain(data) == last
      ensures last == old(last) || (last == Plain(data) == path)
      ensures (forall n: nat :: n >= old(now) ==> luck(n)) && old(path) != Directory ==> ok && tmp.None?
    {
      ok := WriteTmp(data);
      if !ok {
        return;
      }
      ok := Try();
      if !ok || path == Directory {
        DropTmp();
        return false;
      }
      path, tmp, last := Plain(tmp.value), None, Plain(data);
      ok := Try();
    }

    /** The name is empty, and there is an image to put there. */
    ghost predicate Gaping()
      reads this
    {
      path == Empty && asides != map[]
    }

    /** Puts the launcher last installed back if its name is empty, and tidies up
        if it is not. Of what stood at the name only a directory does not come
        back; where one is aside an older image may. */
    method Repair() returns (restored: bool, ok: bool)
      requires Valid()
      modifies this`path, this`tmp, this`asides, this`now, this`last
      ensures Valid() && now >= old(now)
      ensures ok ==> path == last || Buried()
      ensures Buried() <==> old(Buried()) && !restored
      ensures Buried() ==> asides == old(asides) && (ok ==> asides == map[])
      ensures last == old(last) || (old(Buried()) && restored && Newest(old(asides), last))
      ensures old(path) != Empty ==> path == old(path)
      ensures restored ==> old(path) == Empty && path == last != Empty && old(asides) != map[]
      ensures (forall n: nat :: n >= old(now) ==> luck(n)) ==>
                && ok && (old(path).Plain? ==> asides == map[] && tmp.None?)
                && (restored <==> old(path) == Empty && old(asides) != map[])
      ensures old(Gaping()) && !luck(old(now)) ==> !ok && path == Empty
    {
      var images := Asides();
      if path.Empty? {
        if |images| == 0 {
          assert asides == map[];
          return false, true;
        }
        assert Highest(asides, images[0]) by {
          forall m: nat | m in asides
            ensures m <= images[0]
          {
            var i :| 0 <= i < |images| && images[i] == m;
          }
        }
        ok := Try();
        if !ok {
          return false, false;
        }
        path := asides[images[0]];
        asides := asides - {images[0]};
        last := path;
        ok := Try();
        return true, ok;
      }
      if !path.Plain? {
        return false, true;
      }
      for i := 0 to |images|
        invariant now >= old(now)
        invariant forall n: nat :: n in asides ==> n in old(asides) && asides[n] == old(asides)[n]
        invariant (forall n: nat :: n >= old(now) ==> luck(n)) ==> forall n: nat :: n in asides ==> n in images[i..]
        modifies this`asides, this`now
      {
        var gone := Try();
        if gone {
          asides := asides - {images[i]};
        }
      }
      if tmp.Some? {
        DropTmp();
      }
      return false, true;
    }

    /** Swaps in the staged launcher, if there is one for this name. */
    method UpdateSelf(byRename: bool) returns (replaced: bool, ok: bool)
      requires Valid()
      modifies this
      ensures Valid() && now >= old(now)
      ensures last == old(last) || (old(staged).Some? && last == path == Plain(old(staged).value))
      ensures old(staged).None? ==> !replaced && ok && path == old(path) && asides == old(asides)
      ensures old(staged).Some? && (old(staged).value == "" || |old(staged).value| > 0x400_0000
                                    || old(path).Link? || old(path).Directory?) ==>
                !replaced && !ok && path == old(path) && asides == old(asides) && staged == old(staged)
      ensures replaced ==> old(staged).Some? && last == Plain(old(staged).value)
      ensures staged == old(staged) || (staged.None? && old(staged).Some? && path == Plain(old(staged).value))
      ensures (&& (forall n: nat :: n >= old(now) ==> luck(n))
               && (old(path).Empty? || (old(path).Plain? && (byRename || old(NextIsFree()))))
               && old(staged).Some? && 0 < |old(staged).value| <= 0x400_0000) ==>
                (ok && staged.None? && path == Plain(old(staged).value))
    {
      if staged.None? {
        return false, true;
      }
      if !(0 < |staged.value| <= MAX_LAUNCHER) || path.Link? || path.Directory? {
        return false, false;
      }
      if path == Plain(staged.value) {
        DropStaged();
        return false, true;
      }
      if byRename {
        ok := ReplaceByRename(staged.value);
      } else {
        ok := ReplaceAside(staged.value);
      }
      if !ok {
        return false, false;
      }
      DropStaged();
      return true, true;
    }

    method DropStaged()
      modifies this`staged, this`now
      ensures now == old(now) + 1
      ensures staged == if luck(old(now)) then None else old(staged)
    {
      var gone := Try();
      if gone {
        staged := None;
      }
    }

    /** A start repairs, and swaps the staged launcher in only if that worked. */
    method Start(byRename: bool) returns (ok: bool)
      requires Valid()
      modifies this
      ensures Valid() && now >= old(now)
      ensures || last == old(last) || (old(Buried()) && Newest(old(asides), last))
              || (old(staged).Some? && last == path == Plain(old(staged).value))
      ensures old(Gaping()) && !luck(old(now)) ==> !ok && path == Empty && staged == old(staged)
      ensures (&& (forall n: nat :: n >= old(now) ==> luck(n))
               && ((old(Buried()) && old(asides) == map[])
                  || ((old(last).Empty? || old(last).Plain?) && (byRename || old(dirs) == {})))
               && old(staged).Some? && 0 < |old(staged).value| <= 0x400_0000) ==>
                (ok && staged.None? && path == Plain(old(staged).value))
    {
      var restored, replaced;
      restored, ok := Repair();
      if ok {
        replaced, ok := UpdateSelf(byRename);
      }
    }

    /** A committed update stages a launcher. */
    method Stage(image: Image)
      requires Valid()
      modifies this`staged
      ensures Valid() && staged == Some(image)
    {
      staged := Some(image);
    }

    /** Over any run of starts, replacements, repairs and staged launchers, with
        operations failing or cut wherever `luck` says, a repair that completes
        leaves at the name the whole of what was last there. Nothing is there only
        where a directory was found that is still aside. */
    method Lifetime(calls: seq<Call>) returns (ok: bool)
      requires Valid()
      modifies this
      ensures Valid()
      ensures ok ==> path == last || Buried()
      ensures Buried() ==> old(last) == Directory
    {
      for i := 0 to |calls|
        invariant Valid() && (last == Directory ==> old(last) == Directory)
      {
        var done, restored;
        match calls[i]
        case CallStart(byRename) => done := Start(byRename);
        case CallReplace(image, byRename) =>
          if byRename {
            done := ReplaceByRename(image);
          } else {
            done := ReplaceAside(image);
          }
        case CallRepair => restored, done := Repair();
        case CallStage(image) => Stage(image);
      }
      var restored;
      restored, ok := Repair();
    }
  }

  datatype Call =
    | CallStart(byRename: bool) | CallReplace(image: Image, byRename: bool)
    | CallRepair | CallStage(image: Image)

  method Top(s: set<nat>) returns (top: nat)
    requires s != {}
    ensures top in s && forall n :: n in s ==> n <= top
  {
    var todo := s;
    top :| top in s;
    while todo != {}
      invariant todo <= s && top in s
      invariant forall n :: n in s && n !in todo ==> n <= top
      decreases |todo|
    {
      var n :| n in todo;
      if n > top {
        top := n;
      }
      todo := todo - {n};
    }
  }
}
