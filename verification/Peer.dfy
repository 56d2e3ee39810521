/** The peer's reaction to a table it receives (peer/peer.c), on its directory and the ignore sets
    of its monitor, proved to carry out the plan of Reconciles. */
module Peers {
  import opened Table
  import opened TableLaws
  import opened MergeLaws
  import opened FileTables
  import opened Trees
  import opened EventQueues
  import opened Reconciles

  class Peer {
    const me: Addr
    const monitor: Monitor
    var disk: map<string, FileInfo>
    ghost var started: seq<Entry>
    var told: seq<FileInfo>
    var strays: seq<string>

    ghost function View(): Local
      reads this, monitor
    {
      Local(disk, monitor.ignoreModify, started, told, strays)
    }

    constructor (me: Addr, disk: map<string, FileInfo>)
      ensures this.me == me && View() == Local(disk, multiset{}, [], [], [])
      ensures fresh(monitor) && monitor.ignoreDelete == multiset{}
    {
      this.me, this.disk := me, disk;
      started, told, strays := [], [], [];
      monitor := new Monitor();
    }

    /** unlink(), or rmdir() of an empty directory: only while the monitor ignores that. */
    method Unlink(path: string)
      requires path in monitor.ignoreDelete
      modifies this`disk
      ensures disk == old(disk) - {path}
    {
      disk := disk - {path};
    }

    /** Making or truncating a file, or making a directory: only while the monitor ignores that. */
    method Place(path: string, file: FileInfo)
      requires path in monitor.ignoreModify
      modifies this`disk
      ensures disk == old(disk)[path := file]
    {
      disk := disk[path := file];
    }

    /** delete_file() and remove_dir() */
    method DeleteFile(filepath: string)
      modifies this, monitor`ignoreDelete
      ensures View() == Erase(old(View()), filepath)
      ensures monitor.ignoreDelete == old(monitor.ignoreDelete)
    {
      monitor.ignoreDelete := monitor.ignoreDelete + multiset{filepath};
      if filepath in disk && disk[filepath].isDir {
        if !exists q :: q in disk && Inside(filepath, q) {
          Unlink(filepath);
        }
      } else {
        Unlink(filepath);
      }
      monitor.ignoreDelete := monitor.ignoreDelete - multiset{filepath};
    }

    /** The end of download_complete_callback() for a file that is done at once. */
    method DownloadComplete(file: FileInfo)
      modifies this, monitor`ignoreModify
      ensures View() ==
              old(View()).(told := old(told) + [file], ignoreModify := old(monitor.ignoreModify) - multiset{file.path})
    {
      told := told + [file];
      monitor.ignoreModify := monitor.ignoreModify - multiset{file.path};
    }

    /** The part of download_file() for a directory. */
    method FetchDirectory(file: FileInfo, now: int)
      requires file.path in monitor.ignoreModify
      modifies this, monitor`ignoreModify
      ensures View() ==
              if file.path in old(disk) || !HasParent(old(disk), file.path) then old(View())
              else old(View()).(disk := MakeDir(old(disk), file.path, now), told := old(told) + [file],
                                ignoreModify := old(monitor.ignoreModify) - multiset{file.path})
    {
      if file.path !in disk && HasParent(disk, file.path) {
        Place(file.path, FileInfo(file.path, 0, now, true));
        DownloadComplete(file);
      }
    }

    /** The part of download_file() for a regular file. */
    method FetchFile(copy: TableEntry, now: int) returns (clone: TableEntry?)
      requires copy.Valid() && copy.file.path in monitor.ignoreModify
      modifies this, monitor`ignoreModify
      ensures clone in {copy, null}
      ensures var path, was := copy.file.path, old(View());
        && (clone != null <==> CanOpen(was.disk, path) && copy.file.size != 0)
        && View() ==
           if CanOpen(was.disk, path) then
             var placed := was.(disk := was.disk[path := FileInfo(path, 0, now, false)]);
             if copy.file.size == 0 then
               placed.(told := was.told + [copy.file], ignoreModify := was.ignoreModify - multiset{path})
             else placed.(started := was.started + [copy.Value()])
           else
             was.(strays := was.strays + [path],
                  disk := if path in was.disk then was.disk else MakeDir(was.disk, Parent(path).value, now))
    {
      var path := copy.file.path;
      clone := null;
      if !CanOpen(disk, path) {
        if path !in disk {
          disk := MakeDir(disk, Parent(path).value, now);
        }
        strays := strays + [path];
        return;
      }
      Place(path, FileInfo(path, 0, now, false));
      if copy.file.size == 0 {
        DownloadComplete(copy.file);
      } else {
        clone := copy;
        started := started + [copy.Value()];
      }
    }

    /** download_file(); clone is what is handed to a new download, if one is started. */
    method DownloadFile(entry: TableEntry, now: int) returns (clone: TableEntry?)
      requires entry.Valid()
      modifies this, monitor`ignoreModify
      ensures View() == Download(old(View()), entry.Value(), now)
      ensures clone != null ==> fresh(clone) && clone.Valid() && started == old(started) + [clone.Value()]
      ensures clone == null ==> started == old(started)
    {
      clone := null;
      if entry.file.path in monitor.ignoreModify {
        return;
      }
      var copy := entry.Clone();
      monitor.ignoreModify := monitor.ignoreModify + multiset{entry.file.path};
      if entry.file.isDir {
        FetchDirectory(copy.file, now);
      } else {
        clone := FetchFile(copy, now);
      }
    }

    /** One turn of the first loop of update_from_filetable(). */
    method UpdateFile(ft: FileTable, cur: FileInfo, now: int)
      requires ft.Valid() && this !in ft.Repr && monitor !in ft.Repr
      modifies this, monitor`ignoreModify, monitor`ignoreDelete
      ensures View() == Exec(old(View()), Decide(ft.contents, me, cur), now)
      ensures monitor.ignoreDelete == old(monitor.ignoreDelete)
    {
      ghost var plan := Decide(ft.contents, me, cur);
      assert plan != [] ==> plan[1..] == [] && Exec(View(), plan, now) == Do(View(), plan[0], now);
      var entry, k := ft.GetEntry(cur.path);
      if entry == null {
        if !(cur.path != [] && cur.path[0] == '.') {
          DeleteFile(cur.path);
        }
      } else {
        assert ft.Holds(entry, ft.contents[k]);
        var hasLatest := entry.ContainsPeer(me);
        if !hasLatest && (cur.mtime < entry.file.mtime || cur.size != entry.file.size) {
          var clone := DownloadFile(entry, now);
        }
      }
    }

    /** The inner loop of the second loop: whether the file of an entry is in the listing. */
    method FileExists(files: seq<FileInfo>, path: string) returns (r: bool)
      ensures r <==> FileAt(files, path).Some?
    {
      for i := 0 to |files|
        invariant FileAt(files, path) == FileAt(files[i..], path)
      {
        assert files[i..][0] == files[i] && files[i..][1..] == files[i + 1..];
        if files[i].path == path {
          return true;
        }
      }
      return false;
    }

    /** The first loop. */
    method UpdateFiles(ft: FileTable, files: seq<FileInfo>, now: int)
      requires ft.Valid() && this !in ft.Repr && monitor !in ft.Repr
      modifies this, monitor`ignoreModify, monitor`ignoreDelete
      ensures View() == Exec(old(View()), FilePlan(ft.contents, me, files), now)
      ensures monitor.ignoreDelete == old(monitor.ignoreDelete)
    {
      for i := 0 to |files|
        invariant ft.Valid() && ft.contents == old(ft.contents) && monitor.ignoreDelete == old(monitor.ignoreDelete)
        invariant Exec(View(), FilePlan(ft.contents, me, files[i..]), now) ==
                  Exec(old(View()), FilePlan(ft.contents, me, files), now)
      {
        FileStep(View(), ft.contents, me, files, i, now);
        UpdateFile(ft, files[i], now);
      }
      assert files[|files|..] == [];
    }

    /** The second loop. */
    method FetchMissing(ft: FileTable, files: seq<FileInfo>, now: int)
      requires ft.Valid() && this !in ft.Repr && monitor !in ft.Repr
      modifies this, monitor`ignoreModify, monitor`ignoreDelete
      ensures View() == Exec(old(View()), MissingPlan(ft.contents, files), now)
      ensures monitor.ignoreDelete == old(monitor.ignoreDelete)
    {
      var entry := ft.head;
      ghost var k := 0;
      while entry != null
        invariant ft.Valid() && ft.contents == old(ft.contents) && monitor.ignoreDelete == old(monitor.ignoreDelete)
        invariant 0 <= k <= |ft.nodes| && entry == EntryAt(ft.nodes, k)
        invariant Exec(View(), MissingPlan(ft.contents[k..], files), now) ==
                  Exec(old(View()), MissingPlan(ft.contents, files), now)
        decreases |ft.nodes| - k
      {
        assert ft.Holds(entry, ft.contents[k]);
        MissingStep(View(), ft.contents, files, k, now);
        var fileExists := FileExists(files, entry.file.path);
        if !fileExists {
          var clone := DownloadFile(entry, now);
        }
        entry := entry.next;
        k := k + 1;
      }
      assert ft.contents[k..] == [];
    }

    /** update_from_filetable() */
    method UpdateFromTable(ft: FileTable, root: FileInfo, walk: seq<Visit>, now: int)
      requires ft.Valid() && this !in ft.Repr && monitor !in ft.Repr
      requires forall i :: 0 <= i < |walk| ==> walk[i].level > 0
      modifies this, monitor`ignoreModify, monitor`ignoreDelete
      ensures View() == Exec(old(View()), Plan(ft.contents, me, Listing(walk)), now)
      ensures monitor.ignoreDelete == old(monitor.ignoreDelete)
    {
      var files := CurrentFiles(root, walk);
      ExecConcat(View(), FilePlan(ft.contents, me, files), MissingPlan(ft.contents, files), now);
      UpdateFiles(ft, files, now);
      FetchMissing(ft, files, now);
    }
  }

  lemma FileStep(s: Local, c: seq<Entry>, me: Addr, files: seq<FileInfo>, i: nat, now: int)
    requires i < |files|
    ensures Exec(s, FilePlan(c, me, files[i..]), now) ==
            Exec(Exec(s, Decide(c, me, files[i]), now), FilePlan(c, me, files[i + 1..]), now)
  {
    assert files[i..][0] == files[i] && files[i..][1..] == files[i + 1..];
    ExecConcat(s, Decide(c, me, files[i]), FilePlan(c, me, files[i + 1..]), now);
  }

  lemma MissingStep(s: Local, c: seq<Entry>, files: seq<FileInfo>, k: nat, now: int)
    requires k < |c|
    ensures Exec(s, MissingPlan(c[k..], files), now) ==
            Exec(if FileAt(files, c[k].file.path).None? then Download(s, c[k], now) else s,
                 MissingPlan(c[k + 1..], files), now)
  {
    assert c[k..][0] == c[k] && c[k..][1..] == c[k + 1..];
    var rest := MissingPlan(c[k + 1..], files);
    if FileAt(files, c[k].file.path).None? {
      assert ([Fetch(c[k])] + rest)[1..] == rest;
    } else {
      assert [] + rest == rest;
    }
  }
}
