/**
 spdlog's rotating file sink: the log is written to file 0, and when that would grow beyond the
 maximum size every file moves up by one and the last is discarded.
 */
module RotatingFileSink {

  type Message = string

  /** The files by index, each as the messages written to it, and the size the sink remembers. */
  datatype Disk = Disk(files: map<nat, seq<Message>>, currentSize: nat)

  function Size(file: seq<Message>): nat {
    if file == [] then 0 else Size(file[..|file| - 1]) + |file[|file| - 1]|
  }

  /** The contents of files `n` down to 0, oldest message first. */
  function Chain(files: map<nat, seq<Message>>, n: nat): seq<Message> {
    (if n in files then files[n] else []) + if n == 0 then [] else Chain(files, n - 1)
  }

  /** A file keeps to the maximum, unless all its bytes are those of its last message. */
  ghost predicate WithinSize(file: seq<Message>, maxSize: nat) {
    Size(file) <= maxSize || (file != [] && Size(file[..|file| - 1]) == 0)
  }

  ghost predicate Inv(d: Disk, maxSize: nat, maxFiles: nat) {
    && 0 in d.files && d.currentSize == Size(d.files[0])
    && (forall k :: k in d.files ==> k <= maxFiles && (k > 0 ==> k - 1 in d.files))
    && (forall k :: k in d.files ==> WithinSize(d.files[k], maxSize))
  }

  /** Whether index `k` is in use once every file has moved up by one, and what it then holds. */
  predicate Filled(files: map<nat, seq<Message>>, k: nat) {
    k == 0 || k - 1 in files
  }

  function Below(files: map<nat, seq<Message>>, k: nat): seq<Message>
    requires Filled(files, k)
  {
    if k == 0 then [] else files[k - 1]
  }

  function Rotated(files: map<nat, seq<Message>>, top: nat): map<nat, seq<Message>> {
    map k: nat | k <= top && Filled(files, k) :: Below(files, k)
  }

  /** `sink_it_` */
  function Sunk(d: Disk, msg: Message, maxSize: nat, maxFiles: nat): Disk
    requires 0 in d.files
  {
    var rotate := d.currentSize + |msg| > maxSize && Size(d.files[0]) > 0;
    var files := if rotate then Rotated(d.files, maxFiles) else d.files;
    Disk(files[0 := files[0] + [msg]], if rotate then |msg| else d.currentSize + |msg|)
  }

  function SunkAll(d: Disk, msgs: seq<Message>, maxSize: nat, maxFiles: nat): (r: Disk)
    requires 0 in d.files
    ensures 0 in r.files
  {
    if msgs == [] then d
    else Sunk(SunkAll(d, msgs[..|msgs| - 1], maxSize, maxFiles), msgs[|msgs| - 1], maxSize, maxFiles)
  }

  /** The files above `i` have moved up already, those below have not, and `i` is free to move into. */
  ghost predicate HalfMoved(before: map<nat, seq<Message>>, files: map<nat, seq<Message>>, i: nat, top: nat) {
    && (forall k: nat :: k < i ==> (k in files <==> k in before))
    && (forall k: nat :: k > i ==> (k in files <==> k <= top && Filled(before, k)))
    && (i < top ==> i !in files)
    && (forall k: nat :: k in files && k < i ==> files[k] == before[k])
    && (forall k: nat :: k in files && k > i ==> files[k] == Below(before, k))
  }

  /** One turn of the loop in `rotate_` */
  function MoveUp(files: map<nat, seq<Message>>, i: nat): map<nat, seq<Message>>
    requires i > 0
  {
    if i - 1 in files then files[i := files[i - 1]] - {i - 1} else files
  }

  lemma HalfStep(before: map<nat, seq<Message>>, files: map<nat, seq<Message>>, i: nat, top: nat)
    requires 0 < i <= top && HalfMoved(before, files, i, top)
    requires forall k :: k in before ==> k <= top && (k > 0 ==> k - 1 in before)
    requires i == top && i in files ==> i in before
    ensures HalfMoved(before, MoveUp(files, i), i - 1, top)
  {
    var after := MoveUp(files, i);
    assert i - 1 in files <==> Filled(before, i);
    assert i in after <==> Filled(before, i);
  }

  /** Above file 0, every file is the one that was below it, up to the last that there may be. */
  ghost predicate MovedUp(before: map<nat, seq<Message>>, after: map<nat, seq<Message>>, maxFiles: nat) {
    forall k: nat :: k > 0 ==>
      && (k in after <==> k <= maxFiles && k - 1 in before)
      && (k in after ==> after[k] == before[k - 1])
  }

  // ---------- the sink itself ----------

  class Sink {
    const maxSize: nat
    const maxFiles: nat
    var files: map<nat, seq<Message>>
    var currentSize: nat

    ghost function View(): Disk
      reads this
    {
      Disk(files, currentSize)
    }

    /** On an empty directory; the source refuses a maximum size of 0 and more than 200000 files. */
    constructor (maxSize: nat, maxFiles: nat)
      requires 0 < maxSize && maxFiles <= 200000
      ensures this.maxSize == maxSize && this.maxFiles == maxFiles
      ensures JustOpened(View())
    {
      this.maxSize, this.maxFiles := maxSize, maxFiles;
      files, currentSize := map[0 := []], 0;
    }

    /** The renames run from the last file down, so that none overwrites one that is yet to move. */
    method Rotate()
      requires Inv(View(), maxSize, maxFiles)
      modifies this`files
      ensures files == Rotated(old(files), maxFiles)
      ensures MovedUp(old(files), files, maxFiles) && 0 in files && files[0] == []
    {
      ghost var before := files;
      var i: nat := maxFiles;
      while i > 0
        invariant i <= maxFiles && HalfMoved(before, files, i, maxFiles)
        invariant i == maxFiles ==> files == before
      {
        HalfStep(before, files, i, maxFiles);
        if i - 1 in files {
          files := files[i := files[i - 1]] - {i - 1};
        }
        i := i - 1;
      }
      files := files[0 := []];
      assert files == Rotated(before, maxFiles);
    }

    method SinkIt(msg: Message)
      requires Inv(View(), maxSize, maxFiles)
      modifies this
      ensures View() == Sunk(old(View()), msg, maxSize, maxFiles)
      ensures 0 in files && (old(currentSize) + |msg| <= maxSize || Size(old(files)[0]) == 0 ==>
        files == old(files)[0 := old(files)[0] + [msg]] && currentSize == old(currentSize) + |msg|)
      ensures old(currentSize) + |msg| > maxSize && Size(old(files)[0]) > 0 ==>
        MovedUp(old(files), files, maxFiles) && files[0] == [msg] && currentSize == |msg|
    {
      var newSize := currentSize + |msg|;
      if newSize > maxSize {
        if Size(files[0]) > 0 {
          Rotate();
          newSize := |msg|;
        }
      }
      files := files[0 := files[0] + [msg]];
      currentSize := newSize;
    }
  }

  // ---------- what the files hold ----------

  lemma {:induction false} SizeAppend(file: seq<Message>, msg: Message)
    ensures Size(file + [msg]) == Size(file) + |msg|
  {
    assert (file + [msg])[..|file|] == file;
  }

  lemma SunkInv(d: Disk, msg: Message, maxSize: nat, maxFiles: nat)
    requires Inv(d, maxSize, maxFiles)
    ensures Inv(Sunk(d, msg, maxSize, maxFiles), maxSize, maxFiles)
  {
    var d' := Sunk(d, msg, maxSize, maxFiles);
    var rotate := d.currentSize + |msg| > maxSize && Size(d.files[0]) > 0;
    var open := if rotate then [] else d.files[0];
    assert d'.files[0] == open + [msg];
    SizeAppend(open, msg);
    assert (open + [msg])[..|open|] == open;
    assert WithinSize(d'.files[0], maxSize);
    forall k | k in d'.files
      ensures WithinSize(d'.files[k], maxSize) && k <= maxFiles && (k > 0 ==> k - 1 in d'.files)
    {
      if rotate && k > 0 {
        assert Filled(d.files, k) && k - 1 in d.files;
        assert k > 1 ==> Filled(d.files, k - 1);
      }
    }
  }

  /** Rotation moves the whole chain up and pushes the last file off its end. */
  lemma {:induction false} ChainRotated(files: map<nat, seq<Message>>, top: nat, n: nat)
    requires n <= top
    ensures Chain(Rotated(files, top), n) == if n == 0 then [] else Chain(files, n - 1)
  {
    var r := Rotated(files, top);
    assert n in r <==> Filled(files, n);
    if n > 0 {
      ChainRotated(files, top, n - 1);
      assert n in r ==> r[n] == files[n - 1];
      if n > 1 {} else { assert Chain(r, 0) == []; }
      assert Chain(files, n - 1) ==
        (if n - 1 in files then files[n - 1] else []) + (if n == 1 then [] else Chain(files, n - 2));
    }
  }

  lemma {:induction false} ChainAppend(files: map<nat, seq<Message>>, msg: Message, n: nat)
    requires 0 in files
    ensures Chain(files[0 := files[0] + [msg]], n) == Chain(files, n) + [msg]
  {
    if n > 0 { ChainAppend(files, msg, n - 1); }
  }

  ghost predicate Suffix(s: seq<Message>, all: seq<Message>) {
    |s| <= |all| && s == all[|all| - |s|..]
  }

  lemma SuffixAppend(s: seq<Message>, all: seq<Message>, msg: Message)
    requires Suffix(s, all)
    ensures Suffix(s + [msg], all + [msg])
  {
  }

  lemma SuffixOfSuffix(s: seq<Message>, t: seq<Message>, all: seq<Message>)
    requires |s| <= |t| && t == t[..|t| - |s|] + s && Suffix(t, all)
    ensures Suffix(s, all)
  {
  }

  lemma ChainDropsLast(files: map<nat, seq<Message>>, top: nat, all: seq<Message>)
    requires Suffix(Chain(files, top), all)
    ensures Suffix(if top == 0 then [] else Chain(files, top - 1), all)
  {
    var s := if top == 0 then [] else Chain(files, top - 1);
    var t := Chain(files, top);
    var last := if top in files then files[top] else [];
    assert t == last + s && t[..|last|] == last;
    SuffixOfSuffix(s, t, all);
  }

  /**
   From an empty directory, and with every rename succeeding: the files, oldest first, hold a suffix of
   all that was written, cut between messages; all of it, as long as the last file is not in use; and
   each file keeps to the maximum size or holds one message that does not fit in any.
   */
  lemma {:induction false} RotationKeepsSuffix(start: Disk, msgs: seq<Message>, maxSize: nat, maxFiles: nat)
    requires JustOpened(start)
    ensures var d := SunkAll(start, msgs, maxSize, maxFiles);
      && Inv(d, maxSize, maxFiles)
      && Keeps(d, msgs, maxFiles)
  {
    if msgs == [] {
      EmptyDirectory(start, maxSize, maxFiles);
    } else {
      var earlier := msgs[..|msgs| - 1];
      RotationKeepsSuffix(start, earlier, maxSize, maxFiles);
      OneMore(SunkAll(start, earlier, maxSize, maxFiles), msgs, maxSize, maxFiles);
    }
  }

  lemma OneMore(d: Disk, msgs: seq<Message>, maxSize: nat, maxFiles: nat)
    requires msgs != [] && Inv(d, maxSize, maxFiles) && Keeps(d, msgs[..|msgs| - 1], maxFiles)
    ensures var d' := Sunk(d, msgs[|msgs| - 1], maxSize, maxFiles);
      Inv(d', maxSize, maxFiles) && Keeps(d', msgs, maxFiles)
  {
    var earlier, msg := msgs[..|msgs| - 1], msgs[|msgs| - 1];
    assert msgs == earlier + [msg];
    SunkInv(d, msg, maxSize, maxFiles);
    SunkKeeps(d, earlier, msg, maxSize, maxFiles);
  }

  /** An empty directory in which file 0 was opened, as the constructor leaves it. */
  predicate JustOpened(d: Disk) {
    d.files.Keys == {0} && d.files[0] == [] && d.currentSize == 0
  }

  ghost predicate Keeps(d: Disk, msgs: seq<Message>, maxFiles: nat) {
    var chain := Chain(d.files, maxFiles);
    && Suffix(chain, msgs)
    && (msgs != [] ==> chain != [])
    && (maxFiles !in d.files ==> chain == msgs)
  }

  lemma EmptyDirectory(start: Disk, maxSize: nat, maxFiles: nat)
    requires JustOpened(start)
    ensures Inv(start, maxSize, maxFiles) && Keeps(start, [], maxFiles)
  {
    ChainOfEmpty(start.files, maxFiles);
  }

  lemma SunkKeeps(d: Disk, earlier: seq<Message>, msg: Message, maxSize: nat, maxFiles: nat)
    requires Inv(d, maxSize, maxFiles) && Keeps(d, earlier, maxFiles)
    ensures Keeps(Sunk(d, msg, maxSize, maxFiles), earlier + [msg], maxFiles)
  {
    var rotate := d.currentSize + |msg| > maxSize && Size(d.files[0]) > 0;
    var files := if rotate then Rotated(d.files, maxFiles) else d.files;
    if rotate {
      ChainRotated(d.files, maxFiles, maxFiles);
      ChainDropsLast(d.files, maxFiles, earlier);
      assert maxFiles in files <==> Filled(d.files, maxFiles);
    }
    ChainAppend(files, msg, maxFiles);
    SuffixAppend(Chain(files, maxFiles), earlier, msg);
  }

  lemma {:induction false} ChainOfEmpty(files: map<nat, seq<Message>>, n: nat)
    requires forall k :: k in files ==> files[k] == []
    ensures Chain(files, n) == []
  {
    if n > 0 { ChainOfEmpty(files, n - 1); }
  }

  // ---------- when the sink rotates ----------

  /** A file was closed only when the message that starts the next one did not fit in it. */
  ghost predicate ClosedFull(files: map<nat, seq<Message>>, maxSize: nat) {
    forall k: nat :: k > 0 && k in files ==>
      k - 1 in files && files[k - 1] != [] && Size(files[k]) + |files[k - 1][0]| > maxSize
  }

  lemma SunkClosesFull(d: Disk, msg: Message, maxSize: nat, maxFiles: nat)
    requires Inv(d, maxSize, maxFiles) && ClosedFull(d.files, maxSize)
    ensures ClosedFull(Sunk(d, msg, maxSize, maxFiles).files, maxSize)
  {
    var d' := Sunk(d, msg, maxSize, maxFiles);
    forall k: nat | k > 0 && k in d'.files
      ensures k - 1 in d'.files && d'.files[k - 1] != [] && Size(d'.files[k]) + |d'.files[k - 1][0]| > maxSize
    {
      if d.currentSize + |msg| > maxSize && Size(d.files[0]) > 0 {
        assert Filled(d.files, k) && k - 1 in d.files;
        if k > 1 { assert k - 2 in d.files && Filled(d.files, k - 1); }
      }
    }
  }

  /** Whatever is written, files are closed only when full. */
  lemma {:induction false} RotatesOnlyWhenFull(start: Disk, msgs: seq<Message>, maxSize: nat, maxFiles: nat)
    requires JustOpened(start)
    ensures ClosedFull(SunkAll(start, msgs, maxSize, maxFiles).files, maxSize)
  {
    if msgs != [] {
      var earlier := msgs[..|msgs| - 1];
      RotatesOnlyWhenFull(start, earlier, maxSize, maxFiles);
      KeptInv(start, earlier, maxSize, maxFiles);
      SunkClosesFull(SunkAll(start, earlier, maxSize, maxFiles), msgs[|msgs| - 1], maxSize, maxFiles);
    }
  }

  lemma KeptInv(start: Disk, msgs: seq<Message>, maxSize: nat, maxFiles: nat)
    requires JustOpened(start)
    ensures Inv(SunkAll(start, msgs, maxSize, maxFiles), maxSize, maxFiles)
  {
    RotationKeepsSuffix(start, msgs, maxSize, maxFiles);
  }

  /** There is only file 0, and it holds these messages. */
  ghost predicate OneFile(d: Disk, msgs: seq<Message>) {
    d.files.Keys == {0} && d.files[0] == msgs && d.currentSize == Size(msgs)
  }

  lemma SunkFits(d: Disk, msgs: seq<Message>, maxSize: nat, maxFiles: nat)
    requires msgs != [] && OneFile(d, msgs[..|msgs| - 1]) && Size(msgs) <= maxSize
    ensures OneFile(Sunk(d, msgs[|msgs| - 1], maxSize, maxFiles), msgs)
  {
  }

  /** As long as all messages together fit in one file, file 0 holds all of them and there is no other. */
  lemma {:induction false} AllInOneFile(start: Disk, msgs: seq<Message>, maxSize: nat, maxFiles: nat)
    requires JustOpened(start) && Size(msgs) <= maxSize
    ensures OneFile(SunkAll(start, msgs, maxSize, maxFiles), msgs)
  {
    if msgs != [] {
      var earlier := msgs[..|msgs| - 1];
      AllInOneFile(start, earlier, maxSize, maxFiles);
      SunkFits(SunkAll(start, earlier, maxSize, maxFiles), msgs, maxSize, maxFiles);
    }
  }
}
