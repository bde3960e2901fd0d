/** The log-tail tracer: a background poll step that appends the new lines
    of a file to a queue kept in a `State`, raising the `available` flag, and
    a reader that pops lines off the front of that queue.

    File I/O is an input: the poll step receives the file's modification
    time (None when the metadata could not be read) and the raw lines
    `read_line` returned from the current position to the end (None when
    the read failed), each with its '\n' terminator when it had one. */
module Traces {
  import opened Basics
  import opened Flags
  import opened States

  predicate EndsWithNewline(line: string)
  {
    |line| > 0 && line[|line| - 1] == '\n'
  }

  /** A raw line with one trailing '\n' removed; putting it back gives the
      raw line again, so nothing else (a '\r' in particular) is removed. */
  function StripNewline(line: string): (r: string)
    ensures r + (if EndsWithNewline(line) then "\n" else "") == line
  {
    if EndsWithNewline(line) then line[..|line| - 1] else line
  }

  /** What is kept of one raw line: the stripped line, unless it is empty. */
  function Kept(line: string): seq<string>
  {
    var s := StripNewline(line);
    if s == "" then [] else [s]
  }

  /** The lines `read_new_lines` returns for a run of raw lines. */
  function Normalized(raw: seq<string>): (lines: seq<string>)
    ensures |lines| <= |raw|
    ensures forall k :: 0 <= k < |lines| ==> lines[k] != ""
  {
    if raw == [] then [] else Normalized(raw[..|raw| - 1]) + Kept(raw[|raw| - 1])
  }

  /** Normalizing keeps order: two consecutive runs of raw lines give the
      lines of the first followed by the lines of the second. */
  lemma {:induction false} NormalizedAppend(a: seq<string>, b: seq<string>)
    ensures Normalized(a + b) == Normalized(a) + Normalized(b)
  {
    if b == [] {
      assert a + b == a;
    } else {
      var b' := b[..|b| - 1];
      assert (a + b)[..|a + b| - 1] == a + b';
      NormalizedAppend(a, b');
    }
  }

  /** A line is returned exactly when it is non-empty and is some raw line
      with its terminator stripped. */
  lemma {:induction false} NormalizedMember(raw: seq<string>, s: string)
    ensures s in Normalized(raw) <==>
              (s != "" && exists i :: 0 <= i < |raw| && StripNewline(raw[i]) == s)
  {
    if raw != [] {
      var init, last := raw[..|raw| - 1], raw[|raw| - 1];
      NormalizedMember(init, s);
      assert Normalized(raw) == Normalized(init) + Kept(last);
      assert s in Kept(last) <==> s != "" && StripNewline(last) == s;
      if s != "" && exists i :: 0 <= i < |raw| && StripNewline(raw[i]) == s {
        var i :| 0 <= i < |raw| && StripNewline(raw[i]) == s;
        if i < |init| {
          assert StripNewline(init[i]) == s;
        }
      }
      if s in Normalized(init) {
        var i :| 0 <= i < |init| && StripNewline(init[i]) == s;
        assert StripNewline(raw[i]) == s;
      }
      if s in Kept(last) {
        assert StripNewline(raw[|raw| - 1]) == s;
      }
    }
  }

  /** `read_new_lines`: strip each raw line's '\n', skip empty lines, and
      push the rest to the back of a new queue. */
  method ReadNewLines(raw: seq<string>) returns (newLines: seq<string>)
    ensures newLines == Normalized(raw)
  {
    newLines := [];
    var i := 0;
    while i < |raw|
      invariant 0 <= i <= |raw|
      invariant newLines == Normalized(raw[..i])
    {
      var line := raw[i];
      if EndsWithNewline(line) {
        line := line[..|line| - 1];
      }
      if line != "" {
        newLines := newLines + [line];
      }
      assert raw[..i + 1][..i] == raw[..i];
      i := i + 1;
    }
    assert raw[..i] == raw;
  }

  class Trace {
    const path: string
    /** The queue of lines not yet handed out. */
    const stack: State<seq<string>>
    /** Raised when lines have been queued. */
    const available: Flag
    /** The modification time the poll task last acted on. */
    var lastMod: int

    /** Nobody else holds the queue's lock between operations, and a
        non-empty queue is always announced by the flag. */
    ghost predicate Valid()
      reads this, stack, stack.lock, available
    {
      && stack.lock != available
      && stack.Valid()
      && !stack.IsLocked()
      && (stack.snapVal != [] ==> available.Get())
    }

    /** `open` after the file opened, with the poll task started:
        an empty queue, the flag clear, and the poll task's `last_mod` the
        file's modification time or, when unreadable, the epoch. */
    constructor Open(path: string, startMod: Option<int>)
      ensures Valid() && fresh(stack) && fresh(stack.lock) && fresh(available)
      ensures this.path == path && stack.snapVal == [] && !available.Get()
      ensures lastMod == startMod.GetOr(0)
    {
      this.path := path;
      stack := new State<seq<string>>.From([]);
      available := new Flag.From(false);
      lastMod := startMod.GetOr(0);
    }

    /** Whether a poll that sees `modTime` reads the file. */
    predicate Modified(modTime: Option<int>)
      reads this
    {
      modTime.Some? && modTime.value > lastMod
    }

    /** The lines a poll step that sees `modTime` and `read` appends. */
    function Delivered(modTime: Option<int>, read: Option<seq<string>>): (lines: seq<string>)
      reads this
      ensures lines != [] ==> Modified(modTime) && read.Some?
    {
      if Modified(modTime) && read.Some? then Normalized(read.value) else []
    }

    /** One iteration of the poll task: if the file changed since `last_mod`,
        append the new lines at the back of the queue (raising the flag when
        there are any) and move `last_mod` forward, even when the read failed. */
    method Poll(modTime: Option<int>, read: Option<seq<string>>)
      requires Valid()
      modifies this, stack, stack.lock, available
      ensures Valid()
      ensures lastMod == if old(Modified(modTime)) then modTime.value else old(lastMod)
      ensures old(Modified(modTime)) ==> lastMod > old(lastMod)
      ensures stack.snapVal == old(stack.snapVal) + old(Delivered(modTime, read))
      ensures available.Get() == (old(available.Get()) || old(Delivered(modTime, read)) != [])
    {
      if modTime.Some? && modTime.value > lastMod {
        if read.Some? {
          var newLines := ReadNewLines(read.value);
          if newLines != [] {
            var g := stack.Lock();
            g.Assign(g.Deref() + newLines);
            g.Drop();
            if available.IsFalse() {
              available.Set(true);
            }
          }
        }
        lastMod := modTime.value;
      }
    }

    /** One pass of `next_line`'s loop once the flag is raised: pop the front
        of the queue, or, when it is empty, clear the flag. */
    method TakeOrReset() returns (line: Option<string>)
      requires Valid() && available.Get()
      modifies stack, stack.lock, available
      ensures Valid()
      ensures old(stack.snapVal) != [] ==>
                line == Some(old(stack.snapVal)[0]) && stack.snapVal == old(stack.snapVal)[1..] && available.Get()
      ensures old(stack.snapVal) == [] ==>
                line == None && stack.snapVal == [] && !available.Get()
    {
      var g := stack.Lock();
      var queue := g.Deref();
      if queue != [] {
        line := Some(queue[0]);
        g.Assign(queue[1..]);
        g.Drop();
      } else {
        line := None;
        g.Drop();
        available.Set(false);
      }
    }

    /** `next_line`: the front line of the queue, removed from it. It only
        returns once a line is queued, so it never yields None. */
    method NextLine() returns (line: string)
      requires Valid() && stack.snapVal != []
      modifies stack, stack.lock, available
      ensures Valid()
      ensures line == old(stack.snapVal)[0] && stack.snapVal == old(stack.snapVal)[1..]
    {
      var r := TakeOrReset();
      line := r.value;
    }
  }

  /** Lines come out in the order they were polled in: after a poll that
      delivers a batch, `next_line` returns the front of the queue with the
      batch behind it, and leaves the rest queued. */
  method PollThenNext(t: Trace, modTime: int, raw: seq<string>) returns (line: string)
    requires t.Valid() && modTime > t.lastMod
    requires Normalized(raw) != []
    modifies t, t.stack, t.stack.lock, t.available
    ensures t.Valid()
    ensures line == (old(t.stack.snapVal) + Normalized(raw))[0]
    ensures t.stack.snapVal == (old(t.stack.snapVal) + Normalized(raw))[1..]
  {
    ghost var queued := old(t.stack.snapVal) + Normalized(raw);
    ghost var batch := t.Delivered(Some(modTime), Some(raw));
    assert batch == Normalized(raw);
    t.Poll(Some(modTime), Some(raw));
    assert t.stack.snapVal == queued;
    line := t.NextLine();
  }
}
