/** The rolling log file below the asynchronous logger. */
module LogFiles {
  import opened Machine
  import opened Sequences

  const MAX_FILE_SIZE: nat := 1024 * 1024 * 1024

  // ---------------------------------------------------------------- rolling, as a value

  /** Which appended texts went to which file: the closed files, oldest first, and the open one. */
  datatype Rolling = Rolling(closed: seq<seq<seq<char>>>, open: seq<seq<char>>)

  function RollOn(r: Rolling, text: seq<char>): Rolling {
    var open := r.open + [text];
    if |Concat(open)| >= MAX_FILE_SIZE then Rolling(r.closed + [open], [])
    else r.(open := open)
  }

  function RollAll(texts: seq<seq<char>>): Rolling {
    if texts == [] then Rolling([], [])
    else RollOn(RollAll(texts[..|texts| - 1]), texts[|texts| - 1])
  }

  /** All texts of all files, in file order. */
  function Texts(r: Rolling): seq<seq<char>> { Concat(r.closed) + r.open }

  /** A file is closed by the append that takes it to the limit, and by no earlier one. */
  predicate FilledByLast(file: seq<seq<char>>) {
    && file != []
    && |Concat(file)| >= MAX_FILE_SIZE
    && |Concat(file[..|file| - 1])| < MAX_FILE_SIZE
  }

  predicate AllFilled(files: seq<seq<seq<char>>>) {
    forall i | 0 <= i < |files| :: FilledByLast(files[i])
  }

  predicate Rolled(r: Rolling) {
    |Concat(r.open)| < MAX_FILE_SIZE && AllFilled(r.closed)
  }

  lemma FillsUp(open: seq<seq<char>>, text: seq<char>)
    requires |Concat(open)| < MAX_FILE_SIZE <= |Concat(open + [text])|
    ensures FilledByLast(open + [text])
  {
    assert (open + [text])[..|open|] == open;
  }

  lemma CloseKeepsFilled(files: seq<seq<seq<char>>>, file: seq<seq<char>>)
    requires AllFilled(files) && FilledByLast(file)
    ensures AllFilled(files + [file])
  {
  }

  lemma RollOnKeeps(r: Rolling, text: seq<char>)
    requires Rolled(r)
    ensures Rolled(RollOn(r, text))
    ensures Texts(RollOn(r, text)) == Texts(r) + [text]
  {
    var open := r.open + [text];
    Associative(Concat(r.closed), r.open, [text]);
    if |Concat(open)| >= MAX_FILE_SIZE {
      FillsUp(r.open, text);
      CloseKeepsFilled(r.closed, open);
      ConcatSnoc(r.closed, open);
      assert Concat<char>([]) == [];
    }
  }

  /** However the texts are sized, the files hold them all, each whole and in order. */
  lemma {:induction false} RollingConserves(texts: seq<seq<char>>)
    ensures Rolled(RollAll(texts)) && Texts(RollAll(texts)) == texts
  {
    if texts == [] {
      assert Concat<char>([]) == [] && Concat<seq<char>>([]) == [];
    } else {
      var n := |texts| - 1;
      RollingConserves(texts[..n]);
      RollOnKeeps(RollAll(texts[..n]), texts[n]);
    }
  }

  /** A closed file overshoots the limit by less than its last append. */
  lemma ClosedFileSize(file: seq<seq<char>>)
    requires FilledByLast(file)
    ensures 0x4000_0000 <= |Concat(file)| < 0x4000_0000 + |file[|file| - 1]|
  {
    var n := |file| - 1;
    ConcatSnoc(file[..n], file[n]);
    assert file[..n] + [file[n]] == file;
  }

  // ---------------------------------------------------------------- the append-only file

  class AppendFile {
    /** The bytes the stream has taken. */
    ghost var contents: seq<char>
    /** How many of them an explicit flush has passed on. */
    ghost var flushed: nat
    /** How often a write of some text took nothing. */
    ghost var stalls: nat

    constructor ()
      ensures contents == [] && flushed == 0 && stalls == 0
    {
      contents, flushed, stalls := [], 0, 0;
    }

    /** The C library takes any prefix of what it is offered. */
    method Write(text: seq<char>) returns (n: nat)
      modifies this`contents, this`stalls
      ensures n <= |text| && contents == old(contents) + text[..n]
      ensures stalls == old(stalls) + if n == 0 && text != [] then 1 else 0
    {
      n :| 0 <= n <= |text|;
      contents := contents + text[..n];
      stalls := stalls + if n == 0 && text != [] then 1 else 0;
    }

    /** Whatever the short writes, a prefix is delivered, and all of it unless some write took
        nothing. */
    method Append(text: seq<char>)
      modifies this`contents, this`stalls
      ensures exists k :: 0 <= k <= |text| && contents == old(contents) + text[..k]
      ensures old(stalls) <= stalls
      ensures stalls == old(stalls) ==> contents == old(contents) + text
    {
      var n := Write(text);
      var remain := |text| - n;
      while remain > 0
        invariant n <= |text| && remain == |text| - n
        invariant contents == old(contents) + text[..n]
        invariant old(stalls) <= stalls
      {
        var x := Write(text[n..]);
        assert text[..n] + text[n..][..x] == text[..n + x];
        assert contents == old(contents) + text[..n + x];
        if x == 0 {
          break;
        }
        n := n + x;
        remain := |text| - n;
      }
      assert remain == 0 ==> text[..n] == text;
    }

    method Flush()
      modifies this`flushed
      ensures flushed == |contents|
    {
      flushed := |contents|;
    }
  }

  // ---------------------------------------------------------------- the rolling log file

  class LogFile {
    const flushEveryN: int
    var count: int
    var curSize: int
    var file: AppendFile

    /** Which text went to which file. */
    ghost var view: Rolling
    /** The bytes in the files rolled away. */
    ghost var closedContents: seq<seq<char>>
    /** No write has ever taken nothing. */
    ghost var intact: bool
    /** Appends to the open file since it was last flushed. */
    ghost var unflushed: nat

    ghost predicate Valid()
      reads this, file
    {
      Rolled(view) && Holds(view.open)
    }

    /** The counters and the files fit the closed files of `view` and these texts in the open file. */
    ghost predicate Holds(open: seq<seq<char>>)
      reads this, file
    {
      && curSize == |Concat(open)|
      && |closedContents| == |view.closed|
      && (intact ==> OpenFileHolds(open) && ClosedFilesHold(view.closed))
      && unflushed <= count && unflushed <= |open|
      && (count == 0 || count < flushEveryN)
    }

    ghost predicate ClosedFilesHold(closed: seq<seq<seq<char>>>)
      reads `closedContents
    {
      |closedContents| == |closed| && forall i | 0 <= i < |closed| :: closedContents[i] == Concat(closed[i])
    }

    /** The open file holds exactly these texts, all but the last `unflushed` of them flushed. */
    ghost predicate OpenFileHolds(open: seq<seq<char>>)
      reads this, file
    {
      && file.contents == Concat(open)
      && unflushed <= |open|
      && file.flushed <= |file.contents|
      && file.contents[file.flushed..] == Concat(open[|open| - unflushed..])
    }

    /** All bytes the C library has taken, in file order; the last of them may not be flushed. */
    ghost function Stream(): seq<char>
      reads this, file
    {
      Concat(closedContents) + file.contents
    }

    constructor (flushEveryN: int)
      ensures Valid() && fresh(file) && intact && view == Rolling([], []) && this.flushEveryN == flushEveryN
    {
      this.flushEveryN := flushEveryN;
      count, curSize := 0, 0;
      file := new AppendFile();
      view, closedContents, intact, unflushed := Rolling([], []), [], true, 0;
      new;
      assert Concat<char>([]) == [];
    }

    method RollFile()
      modifies this`file, this`curSize, this`count
      ensures fresh(file) && file.contents == [] && file.flushed == 0 && file.stalls == 0
      ensures curSize == 0 && count == 0
    {
      file := new AppendFile();
      curSize := 0;
      count := 0;
    }

    method AppendUnlocked(text: seq<char>)
      requires Valid()
      modifies this`count, this`unflushed, this`intact, file
      ensures intact ==> OpenFileHolds(view.open + [text])
      ensures intact <==> old(intact) && file.stalls == old(file.stalls)
      ensures unflushed <= count && unflushed <= |view.open| + 1
      ensures count == 0 || count < flushEveryN
      ensures if old(count) + 1 < flushEveryN
              then count == old(count) + 1 && unflushed == old(unflushed) + 1 && file.flushed == old(file.flushed)
              else count == 0 && unflushed == 0 && file.flushed == |file.contents|
    {
      WriteText(text);
      count := count + 1;
      if count >= flushEveryN {
        count := 0;
        FlushOpen(view.open + [text]);
      }
    }

    /** Hands the text to the open file; until a flush it counts as unflushed. */
    method WriteText(text: seq<char>)
      requires Valid()
      modifies this`unflushed, this`intact, file`contents, file`stalls
      ensures intact ==> OpenFileHolds(view.open + [text])
      ensures intact <==> old(intact) && file.stalls == old(file.stalls)
      ensures unflushed == old(unflushed) + 1
    {
      ghost var stallsBefore := file.stalls;
      if intact {
        OneMoreUnflushed(file.contents, file.flushed, view.open, text, unflushed);
      }
      file.Append(text);
      unflushed := unflushed + 1;
      intact := intact && file.stalls == stallsBefore;
    }

    method FlushOpen(ghost open: seq<seq<char>>)
      requires intact ==> OpenFileHolds(open)
      modifies this`unflushed, file`flushed
      ensures intact ==> OpenFileHolds(open)
      ensures unflushed == 0 && file.flushed == |file.contents|
    {
      file.Flush();
      unflushed := 0;
      assert Concat<char>(open[|open|..]) == [];
    }

    /** Closes the open file, which holds the texts `open`, and starts the next one. */
    method CloseFull(ghost open: seq<seq<char>>)
      requires Rolled(view) && FilledByLast(open) && Holds(open)
      modifies this, file`flushed
      ensures Valid() && view == Rolling(old(view).closed + [open], [])
      ensures fresh(file) && intact == old(intact) && count == 0
      ensures old(file).flushed == |old(file).contents|
    {
      CloseKeepsFilled(view.closed, open);
      file.Flush();
      Archive(open);
      view := Rolling(view.closed + [open], []);
      unflushed := 0;
      RollFile();
      assert Concat<char>([]) == [] && view.open[0..] == [];
    }

    ghost method Archive(open: seq<seq<char>>)
      requires |closedContents| == |view.closed|
      requires intact ==> file.contents == Concat(open) && ClosedFilesHold(view.closed)
      modifies this`closedContents
      ensures |closedContents| == |view.closed| + 1
      ensures intact ==> ClosedFilesHold(view.closed + [open])
    {
      closedContents := closedContents + [file.contents];
    }

    /** `curSize_` is an `int`, so its new value has to be one. A file that is rolled away has been
        flushed. */
    method Append(text: seq<char>)
      requires Valid() && curSize + |text| <= INT32_MAX
      modifies this, file
      ensures Valid() && view == RollOn(old(view), text)
      ensures file == old(file) || fresh(file)
      ensures count == if file != old(file) || old(count) + 1 >= flushEveryN then 0 else old(count) + 1
      ensures intact <==> old(intact) && old(file).stalls == old(file.stalls)
      ensures file != old(file) ==> old(file).flushed == |old(file).contents|
    {
      ghost var open := view.open + [text];
      ConcatSnoc(view.open, text);
      AppendUnlocked(text);
      curSize := curSize + |text|;
      RollIfFull(open);
    }

    method RollIfFull(ghost open: seq<seq<char>>)
      requires Rolled(view) && Holds(open)
      requires open != [] && open[..|open| - 1] == view.open
      modifies this, file`flushed
      ensures Valid() && view == RollOn(old(view), open[|open| - 1])
      ensures if file == old(file) then count == old(count) else fresh(file) && count == 0
      ensures file != old(file) ==> old(file).flushed == |old(file).contents|
      ensures intact == old(intact)
    {
      assert open == view.open + [open[|open| - 1]];
      if curSize >= MAX_FILE_SIZE {
        FillsUp(view.open, open[|open| - 1]);
        CloseFull(open);
      } else {
        view := view.(open := open);
      }
    }

    method Flush()
      requires Valid()
      modifies this`unflushed, file`flushed
      ensures Valid() && unflushed == 0 && file.flushed == |file.contents|
    {
      FlushOpen(view.open);
    }

    /** With no stalled write the bytes in the files are the appended texts, end to end. */
    lemma FilesHoldEverything()
      requires Valid() && intact
      ensures Stream() == Concat(Texts(view))
    {
      ConcatAdd(Concat(view.closed), view.open);
      FlattenTwice(view.closed, closedContents);
    }

    /** With no append unflushed, every byte of the open file is flushed. */
    lemma NothingUnflushed()
      requires Valid() && intact && unflushed == 0
      ensures file.flushed == |file.contents|
    {
      assert Concat<char>(view.open[|view.open|..]) == [];
    }

    /** At most `flushEveryN - 1` of the appends to the open file are not flushed. */
    lemma FewUnflushed()
      requires Valid()
      ensures unflushed < (if flushEveryN < 1 then 1 else flushEveryN)
      ensures intact ==>
                (file.contents == file.contents[..file.flushed] + Concat(view.open[|view.open| - unflushed..]))
    {
    }
  }

  /** One more text in the file, and one more that is not flushed. */
  lemma OneMoreUnflushed(contents: seq<char>, flushed: nat, open: seq<seq<char>>, text: seq<char>, n: nat)
    requires contents == Concat(open) && flushed <= |contents| && n <= |open|
    requires contents[flushed..] == Concat(open[|open| - n..])
    ensures var longer := open + [text];
            && contents + text == Concat(longer)
            && (contents + text)[flushed..] == Concat(longer[|longer| - (n + 1)..])
  {
    var longer := open + [text];
    ConcatSnoc(open, text);
    ConcatSnoc(open[|open| - n..], text);
    assert longer[|longer| - (n + 1)..] == open[|open| - n..] + [text];
    assert (contents + text)[flushed..] == contents[flushed..] + text;
  }

  lemma {:induction false} FlattenTwice(nested: seq<seq<seq<char>>>, flat: seq<seq<char>>)
    requires |nested| == |flat| && forall i | 0 <= i < |nested| :: flat[i] == Concat(nested[i])
    ensures Concat(flat) == Concat(Concat(nested))
  {
    if nested != [] {
      FlattenTwice(nested[1..], flat[1..]);
      ConcatAdd(nested[0], Concat(nested[1..]));
    }
  }
}
