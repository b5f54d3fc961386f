/** The inotify watcher: its dictionaries and its event queue, changed in place. */
module InotifyClass {
  import B = InotifyBuffer
  import opened InotifyIndex

  class Inotify {
    var wdByPath: map<Path, int>
    var pathByWd: map<int, Path>
    var moved: map<int, Path>
    var queue: seq<Event>

    function View(): State
      reads this
    {
      State(wdByPath, pathByWd, moved, queue)
    }

    constructor ()
      ensures View() == INIT
    {
      wdByPath, pathByWd, moved, queue := map[], map[], map[], [];
    }

    /** `wd` is what the kernel answers. */
    method WatchPath(path: Path, wd: int) returns (ok: bool)
      modifies this
      ensures ok == (path !in old(wdByPath))
      ensures View() == if ok then Watched(old(View()), path, wd) else old(View())
    {
      if path in wdByPath { return false; }
      wdByPath := wdByPath[path := wd];
      pathByWd := pathByWd[wd := path];
      return true;
    }

    method TrackMoves(e: Event)
      modifies `wdByPath, `pathByWd, `moved
      ensures View() == Moved(old(View()), e)
    {
      hide Has;
      if Has(e.mask, MOVED_FROM) {
        moved := moved[e.cookie := e.path];
      } else if Has(e.mask, MOVED_TO) {
        if e.cookie in moved {
          var from := moved[e.cookie];
          moved := moved - {e.cookie};
          if from in wdByPath {
            var wd := wdByPath[from];
            wdByPath := (wdByPath - {from})[e.path := wd];
            pathByWd := pathByWd[wd := e.path];
          }
        }
      }
    }

    /** `fault` is the KeyError of an IGNORED whose path is not indexed. */
    method HandleEvent(e: Event) returns (fault: bool)
      modifies this
      ensures fault == Faulty(old(View()), e) && View() == Handled(old(View()), e)
    {
      hide Has;
      hide Moved;
      TrackMoves(e);
      if Has(e.mask, IGNORED) {
        if e.wd !in pathByWd || pathByWd[e.wd] !in wdByPath { return true; }
        var ignored := pathByWd[e.wd];
        if wdByPath[ignored] == e.wd {
          wdByPath := wdByPath - {ignored};
        }
        return false;
      }
      queue := queue + [e];
      return false;
    }

    /** Parsed events are looked up and handled one by one, never as a list beforehand. */
    method ReadAndQueueEvents(data: seq<int>) returns (fault: bool)
      requires B.AreBytes(data)
      modifies this
      ensures Outcome(View(), fault) == Read(old(View()), B.Parse(data))
    {
      hide Handled;
      hide Faulty;
      var raws := B.ParsedBuffer(data);
      var i := 0;
      assert raws[0..] == raws;
      while i < |raws|
        invariant 0 <= i <= |raws|
        invariant Read(old(View()), raws) == Read(View(), raws[i..])
      {
        var r := raws[i];
        assert raws[i..][1..] == raws[i + 1..];
        if r.wd in pathByWd {
          fault := HandleEvent(EventOf(View(), r));
          if fault { return true; }
        }
        i := i + 1;
      }
      return false;
    }
  }
}
