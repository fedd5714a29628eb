/** The service host's rotating log: an active file and three archives, each within a size limit,
    shifted by file moves when a record does not fit. */
module ServiceLog {
  import opened Utf8

  const NEWLINE: seq<Scalar> := [13, 10]
  const LINE_FEED: Byte := 10

  datatype File = Absent | Present(bytes: seq<Byte>)

  /** The files of the log by number: 0 is the active file, 1 to 3 are the archives, newest first. */
  type Disk = d: seq<File> | |d| == 4 witness [Absent, Absent, Absent, Absent]

  function Content(file: File): seq<Byte> {
    if file.Present? then file.bytes else []
  }

  /** Everything retained, oldest first. */
  function History(disk: Disk): seq<Byte> {
    Content(disk[3]) + Content(disk[2]) + Content(disk[1]) + Content(disk[0])
  }

  function Flatten(files: seq<seq<Byte>>): seq<Byte> {
    if files == [] then [] else Flatten(files[..|files| - 1]) + files[|files| - 1]
  }

  /** A file that is there, as a list of one. */
  function Kept(file: File): seq<seq<Byte>> {
    if file.Present? then [file.bytes] else []
  }

  /** The files that are there, oldest first; the active one comes last. */
  function Chain(disk: Disk): seq<seq<Byte>> {
    Kept(disk[3]) + Kept(disk[2]) + Kept(disk[1]) + Kept(disk[0])
  }

  /** Files are only ever appended to at the end of the last, or begun after it: no file that was
      left behind is altered, split or passed over. */
  ghost predicate Grown(before: seq<seq<Byte>>, after: seq<seq<Byte>>) {
    0 < |before| <= |after| && before[|before| - 1] <= after[|before| - 1] &&
    forall i | 0 <= i < |before| - 1 :: after[i] == before[i]
  }

  lemma GrownAtFirst(files: seq<seq<Byte>>)
    requires files != []
    ensures Grown(files, files)
  {
  }

  lemma GrownSteps(a: seq<seq<Byte>>, b: seq<seq<Byte>>, c: seq<seq<Byte>>)
    requires Grown(a, b) && Grown(b, c)
    ensures Grown(a, c)
  {
  }

  ghost predicate Within(files: seq<seq<Byte>>, limit: nat) {
    forall i | 0 <= i < |files| :: |files[i]| <= limit
  }

  /** Every file holds whole characters. */
  ghost predicate Whole(files: seq<seq<Byte>>) {
    forall i | 0 <= i < |files| :: WellFormed(files[i])
  }

  /** The files after the last of them got more. */
  function Extended(files: seq<seq<Byte>>, chunk: seq<Byte>): seq<seq<Byte>>
    requires files != []
  {
    files[..|files| - 1] + [files[|files| - 1] + chunk]
  }

  lemma ExtendedGrows(files: seq<seq<Byte>>, chunk: seq<Byte>)
    requires files != []
    ensures Grown(files, Extended(files, chunk)) && Flatten(Extended(files, chunk)) == Flatten(files) + chunk
    ensures Whole(files) && WellFormed(chunk) ==> Whole(Extended(files, chunk))
  {
    hide WellFormed;
    var n := |files| - 1;
    assert Extended(files, chunk)[..n] == files[..n];
    assert Flatten(files[..n]) + (files[n] + chunk) == Flatten(files[..n]) + files[n] + chunk;
    if Whole(files) && WellFormed(chunk) {
      JoinWellFormed(files[n], chunk);
    }
  }

  lemma FileBegins(files: seq<seq<Byte>>)
    requires files != []
    ensures Grown(files, files + [[]]) && Flatten(files + [[]]) == Flatten(files)
    ensures Whole(files) ==> Whole(files + [[]])
    ensures forall limit :: Within(files, limit) ==> Within(files + [[]], limit)
  {
    hide WellFormed;
    EncodingIsWellFormed([]);
    assert (files + [[]])[..|files|] == files;
  }

  /** One chunk of a record: shifting first or not, all that happens is that it goes in last. */
  lemma ChunkWritten(files: seq<seq<Byte>>, shift: bool, chunk: seq<Byte>)
    requires files != []
    ensures var after := Extended(if shift then files + [[]] else files, chunk);
      Grown(files, after) && Flatten(after) == Flatten(files) + chunk && (Whole(files) && WellFormed(chunk) ==> Whole(after))
  {
    hide Whole, Flatten, Extended, Grown, WellFormed;
    var roomy := if shift then files + [[]] else files;
    ExtendedGrows(roomy, chunk);
    if shift {
      FileBegins(files);
      GrownSteps(files, roomy, Extended(roomy, chunk));
    }
  }

  lemma ShiftKeepsFiles(disk: Disk)
    ensures Kept(disk[3]) + Chain(Shifted(disk)) == Chain(disk)
  {
  }

  lemma {:induction false} FlattenConcat(a: seq<seq<Byte>>, b: seq<seq<Byte>>)
    ensures Flatten(a + b) == Flatten(a) + Flatten(b)
  {
    if b == [] {
      assert a + b == a;
    } else {
      var n := |b| - 1;
      assert (a + b)[..|a + b| - 1] == a + b[..n];
      FlattenConcat(a, b[..n]);
    }
  }

  lemma FlattenKept(file: File)
    ensures Flatten(Kept(file)) == Content(file)
  {
    if file.Present? {
      assert Flatten([]) == [] && Kept(file)[..0] == [];
    }
  }

  /** Joined together the files are the retained history. */
  lemma ChainIsHistory(disk: Disk)
    ensures Flatten(Chain(disk)) == History(disk)
  {
    hide Flatten, Kept, Content;
    forall n | 0 <= n < 4 ensures Flatten(Kept(disk[n])) == Content(disk[n]) {
      FlattenKept(disk[n]);
    }
    FlattenConcat(Kept(disk[3]), Kept(disk[2]));
    FlattenConcat(Kept(disk[3]) + Kept(disk[2]), Kept(disk[1]));
    FlattenConcat(Kept(disk[3]) + Kept(disk[2]) + Kept(disk[1]), Kept(disk[0]));
  }

  /** The disk after a shift: every file one place older, the oldest archive gone, none active. */
  function Shifted(disk: Disk): Disk {
    [Absent, disk[0], disk[1], disk[2]]
  }

  function Deleted(disk: Disk): seq<seq<Byte>> {
    Kept(disk[3])
  }

  // ----- Trimming -----

  function FirstLineFeed(content: seq<Byte>, p: nat): (q: nat)
    requires p <= |content|
    ensures p <= q <= |content| && (q < |content| ==> content[q] == LINE_FEED)
    ensures forall i | p <= i < q :: content[i] != LINE_FEED
    decreases |content| - p
  {
    if p == |content| || content[p] == LINE_FEED then p else FirstLineFeed(content, p + 1)
  }

  function FirstBoundary(content: seq<Byte>, p: nat): (q: nat)
    requires p <= |content|
    ensures p <= q <= |content| && Boundary(content, q)
    ensures forall i | p <= i < q :: Tail(content[i])
    decreases |content| - p
  {
    if p == |content| || !Tail(content[p]) then p else FirstBoundary(content, p + 1)
  }

  /** Where the retained part of an oversized file starts: after the first line feed of the last
      `limit` bytes, or, if that would leave nothing, at their first character boundary. */
  function TrimStart(content: seq<Byte>, limit: nat): (start: nat)
    requires limit < |content|
    ensures |content| - limit <= start <= |content| && (WellFormed(content) ==> Boundary(content, start))
    ensures start < |content| ==> content[start - 1] == LINE_FEED || !Tail(content[start])
  {
    var tail := |content| - limit;
    var feed := FirstLineFeed(content, tail);
    if feed + 1 < |content| then
      LineFeedEndsCharacter(content, feed);
      feed + 1
    else FirstBoundary(content, tail)
  }

  lemma {:induction false} LineFeedEndsCharacter(s: seq<Byte>, p: nat)
    requires p + 1 < |s| && s[p] == LINE_FEED
    ensures WellFormed(s) ==> Boundary(s, p + 1)
    decreases |s|
  {
    hide CharLength;
    if WellFormed(s) && Tail(s[p + 1]) {
      CutAtBoundary(s, p);
      var rest := s[p..];
      assert rest[0] == LINE_FEED && rest[1] == s[p + 1];
      SingleByteCharacter(rest);
    }
  }

  lemma SingleByteCharacter(s: seq<Byte>)
    requires |s| >= 2 && s[0] == LINE_FEED && WellFormed(s)
    ensures !Tail(s[1])
  {
    assert CharLength(s) == 1;
    assert s[1..][0] == s[1];
  }

  function Trimmed(content: seq<Byte>, limit: nat): seq<Byte> {
    if |content| <= limit then content else content[TrimStart(content, limit)..]
  }

  /** Trimming well-formed text keeps whole characters and wastes at most three bytes unless it
      can start on a complete record. */
  lemma TrimKeepsText(content: seq<Byte>, limit: nat)
    requires limit >= 4 && WellFormed(content)
    ensures WellFormed(Trimmed(content, limit)) && |Trimmed(content, limit)| <= limit
    ensures |content| > limit ==> Trimmed(content, limit) != []
    ensures |content| > limit && TrimStart(content, limit) > |content| - limit + 3 ==>
      content[TrimStart(content, limit) - 1] == LINE_FEED
  {
    if |content| > limit {
      var start, tail := TrimStart(content, limit), |content| - limit;
      CutAtBoundary(content, start);
      BoundaryWithinFour(content, tail);
    }
  }

  // ----- What is retained, from the bytes alone -----

  /** A byte after which a record starts, with at least one byte of it there: a line feed (10) among
      the last `limit` bytes. */
  ghost predicate EndsRecord(content: seq<Byte>, limit: nat, q: nat) {
    |content| <= q + limit && q + 1 < |content| && content[q] == 10
  }

  /** What trimming keeps: everything within the limit; else what follows the first record end of the
      last `limit` bytes; else, if there is none, those bytes but for the continuation bytes
      (10xxxxxx) they start with. */
  ghost predicate Retains(content: seq<Byte>, limit: nat, kept: seq<Byte>) {
    if |content| <= limit then kept == content
    else if exists q :: EndsRecord(content, limit, q) then
      exists q :: EndsRecord(content, limit, q) && (forall p | EndsRecord(content, limit, p) :: q <= p) && kept == content[q + 1..]
    else
      exists start :: |content| - limit <= start <= |content| && kept == content[start..] &&
        (forall i | |content| - limit <= i < start :: 0x80 <= content[i] < 0xC0) &&
        (start < |content| ==> !(0x80 <= content[start] < 0xC0))
  }

  lemma TrimRetains(content: seq<Byte>, limit: nat)
    ensures Retains(content, limit, Trimmed(content, limit))
  {
    if |content| > limit {
      var tail := |content| - limit;
      if FirstLineFeed(content, tail) + 1 < |content| {
        RecordIsRetained(content, limit);
      } else {
        TailIsRetained(content, limit);
      }
    }
  }

  lemma RecordIsRetained(content: seq<Byte>, limit: nat)
    requires limit < |content| && FirstLineFeed(content, |content| - limit) + 1 < |content|
    ensures Retains(content, limit, Trimmed(content, limit))
  {
    hide FirstLineFeed, FirstBoundary;
    var feed := FirstLineFeed(content, |content| - limit);
    assert EndsRecord(content, limit, feed);
    forall p: nat | EndsRecord(content, limit, p) ensures feed <= p {
    }
    assert Trimmed(content, limit) == content[feed + 1..];
  }

  lemma TailIsRetained(content: seq<Byte>, limit: nat)
    requires limit < |content| && FirstLineFeed(content, |content| - limit) + 1 >= |content|
    ensures Retains(content, limit, Trimmed(content, limit))
  {
    hide FirstLineFeed, FirstBoundary;
    forall q: nat ensures !EndsRecord(content, limit, q) {
    }
    var start := FirstBoundary(content, |content| - limit);
    assert Trimmed(content, limit) == content[start..];
    assert start < |content| ==> !Tail(content[start]);
  }

  // ----- The log -----

  ghost predicate RetainsFile(file: File, limit: nat, kept: File) {
    if file.Present? then kept.Present? && Retains(file.bytes, limit, kept.bytes) else kept.Absent?
  }

  /** How a log is opened: every file trimmed; an active one at the limit shifted away; else the
      active one goes on, or a first one is begun. */
  ghost predicate OpenedFrom(files: Disk, limit: nat, disk: Disk, dropped: seq<seq<Byte>>) {
    exists kept: Disk :: (forall n | 0 <= n < 4 :: RetainsFile(files[n], limit, kept[n])) &&
      if files[0].Present? && |files[0].bytes| >= limit then
        disk == [Present([]), kept[0], kept[1], kept[2]] && dropped == (if kept[3].Present? then [kept[3].bytes] else [])
      else
        disk == [if files[0].Present? then files[0] else Present([]), kept[1], kept[2], kept[3]] && dropped == []
  }

  lemma PreparedIsOpened(files: Disk, limit: nat)
    ensures OpenedFrom(files, limit, Prepared(files, limit), OpenedDropped(files, limit))
  {
    hide Trimmed, Retains;
    var kept := AllTrimmed(files, limit);
    forall n | 0 <= n < 4 ensures RetainsFile(files[n], limit, kept[n]) {
      TrimRetains(Content(files[n]), limit);
    }
    if |Content(files[0])| <= limit {
      AlreadyShort(Content(files[0]), limit);
    }
  }

  /** How a chunk is written when `more` bytes of its record are left: into a fresh file, everything
      else one place older and the oldest archive dropped, if the active one is not empty and they do
      not all fit; at its end otherwise. */
  ghost predicate ChunkGoesIn(before: Disk, droppedBefore: seq<seq<Byte>>, after: Disk, droppedAfter: seq<seq<Byte>>,
                              chunk: seq<Byte>, more: nat, limit: nat)
  {
    before[0].Present? &&
    if 0 < |before[0].bytes| && |before[0].bytes| + more > limit then
      && after == [Present(chunk), before[0], before[1], before[2]]
      && droppedAfter == droppedBefore + (if before[3].Present? then [before[3].bytes] else [])
    else
      after == [Present(before[0].bytes + chunk), before[1], before[2], before[3]] && droppedAfter == droppedBefore
  }

  lemma WrittenGoesIn(disk: Disk, dropped: seq<seq<Byte>>, more: nat, limit: nat, chunk: seq<Byte>)
    requires disk[0].Present?
    ensures var shift := Full(disk, more, limit);
      ChunkGoesIn(disk, dropped, Written(disk, shift, chunk), if shift then dropped + Deleted(disk) else dropped,
                  chunk, more, limit)
  {
  }

  /** The files there are once the log is open: the trimmed ones and, unless the active one can go on,
      a new one. */
  function Opened(files: Disk, limit: nat): seq<seq<Byte>> {
    var trimmed := Chain(AllTrimmed(files, limit));
    if files[0].Present? && |files[0].bytes| < limit then trimmed else trimmed + [[]]
  }

  /** The oldest archive is dropped on opening only to make room for a full active file. */
  function OpenedDropped(files: Disk, limit: nat): seq<seq<Byte>> {
    if files[0].Present? && |files[0].bytes| >= limit then Deleted(AllTrimmed(files, limit)) else []
  }

  lemma OpenedFiles(files: Disk, limit: nat)
    requires limit >= 4
    ensures OpenedDropped(files, limit) + Chain(Prepared(files, limit)) == Opened(files, limit)
  {
    hide Trimmed;
    if files[0].Present? && |files[0].bytes| >= limit {
      ShiftKeepsFiles(AllTrimmed(files, limit));
    }
  }

  lemma TrimmedFileFits(file: File, limit: nat)
    requires limit >= 4
    ensures Within(Kept(TrimmedFile(file, limit)), limit)
    ensures Whole(Kept(file)) ==> Whole(Kept(TrimmedFile(file, limit)))
  {
    hide Trimmed, WellFormed;
    if file.Present? {
      TrimIsWithin(file.bytes, limit);
      if Whole(Kept(file)) {
        assert WellFormed(Kept(file)[0]);
        TrimKeepsText(file.bytes, limit);
      }
    }
  }

  lemma OpenedFit(files: Disk, limit: nat)
    requires limit >= 4
    ensures Within(Opened(files, limit), limit) && (Whole(Chain(files)) ==> Whole(Opened(files, limit)))
  {
    hide Within, Whole, Kept, Chain, TrimmedFile;
    var trimmed := AllTrimmed(files, limit);
    forall n | 0 <= n < 4
      ensures Within(Kept(trimmed[n]), limit) && (Whole(Kept(files[n])) ==> Whole(Kept(trimmed[n])))
    {
      TrimmedFileFits(files[n], limit);
    }
    ChainIsWithin(trimmed, limit);
    ChainIsWhole(trimmed);
    ChainIsWhole(files);
    NewFileFits(trimmed, limit);
  }

  lemma NewFileFits(disk: Disk, limit: nat)
    ensures Within(Chain(disk), limit) ==> Within(Chain(disk) + [[]], limit)
    ensures Whole(Chain(disk)) ==> Whole(Chain(disk) + [[]])
  {
    hide WellFormed;
    EncodingIsWellFormed([]);
    assert WellFormed([]);
    JoinedWithin(Chain(disk), [[]], limit);
    JoinedWhole(Chain(disk), [[]]);
  }

  lemma ChainIsWithin(disk: Disk, limit: nat)
    ensures Within(Chain(disk), limit) <==> forall n | 0 <= n < 4 :: Within(Kept(disk[n]), limit)
  {
    hide Kept;
    JoinedWithin(Kept(disk[3]), Kept(disk[2]), limit);
    JoinedWithin(Kept(disk[3]) + Kept(disk[2]), Kept(disk[1]), limit);
    JoinedWithin(Kept(disk[3]) + Kept(disk[2]) + Kept(disk[1]), Kept(disk[0]), limit);
  }

  lemma JoinedWithin(a: seq<seq<Byte>>, b: seq<seq<Byte>>, limit: nat)
    ensures Within(a + b, limit) <==> Within(a, limit) && Within(b, limit)
  {
    assert forall i | 0 <= i < |a| :: (a + b)[i] == a[i];
    assert forall i | 0 <= i < |b| :: (a + b)[|a| + i] == b[i];
  }

  lemma ChainIsWhole(disk: Disk)
    ensures Whole(Chain(disk)) <==> forall n | 0 <= n < 4 :: Whole(Kept(disk[n]))
  {
    hide Kept;
    JoinedWhole(Kept(disk[3]), Kept(disk[2]));
    JoinedWhole(Kept(disk[3]) + Kept(disk[2]), Kept(disk[1]));
    JoinedWhole(Kept(disk[3]) + Kept(disk[2]) + Kept(disk[1]), Kept(disk[0]));
  }

  lemma JoinedWhole(a: seq<seq<Byte>>, b: seq<seq<Byte>>)
    ensures Whole(a + b) <==> Whole(a) && Whole(b)
  {
    hide WellFormed;
    assert forall i | 0 <= i < |a| :: (a + b)[i] == a[i];
    assert forall i | 0 <= i < |b| :: (a + b)[|a| + i] == b[i];
  }

  function TrimmedFile(file: File, limit: nat): File {
    if file.Present? then Present(Trimmed(file.bytes, limit)) else Absent
  }

  function AllTrimmed(files: Disk, limit: nat): Disk {
    seq(4, n requires 0 <= n < 4 => TrimmedFile(files[n], limit))
  }

  /** The disk once the constructor has trimmed what is too long and made room. */
  function Prepared(files: Disk, limit: nat): Disk {
    var trimmed := AllTrimmed(files, limit);
    if files[0].Present? && |files[0].bytes| >= limit then Shifted(trimmed)[0 := Present([])]
    else if files[0].Present? then trimmed
    else trimmed[0 := Present([])]
  }

  lemma TrimIsWithin(content: seq<Byte>, limit: nat)
    ensures |Trimmed(content, limit)| <= limit
    ensures Trimmed(content, limit) == content[|content| - |Trimmed(content, limit)|..]
  {
  }

  /** The files there ever were hold what was dropped followed by what is retained. */
  lemma FilesAreEverything(dropped: seq<seq<Byte>>, disk: Disk)
    ensures Flatten(dropped + Chain(disk)) == Flatten(dropped) + History(disk)
  {
    FlattenConcat(dropped, Chain(disk));
    ChainIsHistory(disk);
  }

  lemma RotatedFiles(dropped: seq<seq<Byte>>, disk: Disk)
    ensures dropped + Deleted(disk) + Chain(Shifted(disk)) == dropped + Chain(disk)
  {
    hide Chain, Kept;
    ShiftKeepsFiles(disk);
    assert dropped + Kept(disk[3]) + Chain(Shifted(disk)) == dropped + (Kept(disk[3]) + Chain(Shifted(disk)));
  }

  lemma ShiftedFiles(dropped: seq<seq<Byte>>, disk: Disk)
    ensures dropped + Chain(Shifted(disk)[0 := Present([])]) == dropped + Chain(Shifted(disk)) + [[]]
  {
  }

  /** Whether `more` bytes go into a fresh active file: there is an active one and they do not fit. */
  predicate Full(disk: Disk, more: nat, limit: nat) {
    Content(disk[0]) != [] && |Content(disk[0])| + more > limit
  }

  /** The disk and the dropped archives after a chunk was written, shifting first if asked to. */
  function Written(disk: Disk, shift: bool, chunk: seq<Byte>): Disk {
    if shift then Shifted(disk)[0 := Present(chunk)] else disk[0 := Present(Content(disk[0]) + chunk)]
  }

  lemma WrittenAfterRoom(disk: Disk, shift: bool, room: Disk, chunk: seq<Byte>)
    requires room == if shift then Shifted(disk)[0 := Present([])] else disk
    ensures room[0 := Present(Content(room[0]) + chunk)] == Written(disk, shift, chunk)
  {
    assert [] + chunk == chunk;
  }

  lemma ActiveIsLast(dropped: seq<seq<Byte>>, disk: Disk, limit: nat)
    requires disk[0].Present?
    ensures var files := dropped + Chain(disk);
      && files != [] && files[|files| - 1] == disk[0].bytes
      && (Within(files, limit) ==> |disk[0].bytes| <= limit)
      && forall bytes :: dropped + Chain(disk[0 := Present(bytes)]) == files[..|files| - 1] + [bytes]
  {
    var earlier := dropped + Kept(disk[3]) + Kept(disk[2]) + Kept(disk[1]);
    var files := dropped + Chain(disk);
    assert files == earlier + [disk[0].bytes] && files[..|files| - 1] == earlier;
    assert files[|files| - 1] == disk[0].bytes;
    forall bytes ensures dropped + Chain(disk[0 := Present(bytes)]) == earlier + [bytes] {
    }
  }

  class RotatingLog {
    const limit: nat
    var disk: Disk
    /** The archives deleted so far, in order. */
    ghost var dropped: seq<seq<Byte>>

    /** Every file there ever was, the dropped ones first and the active one last. */
    ghost function Files(): seq<seq<Byte>>
      reads this
    {
      dropped + Chain(disk)
    }

    /** The active file is open, and every file is, or was when it was dropped, within the limit. */
    ghost predicate Valid()
      reads this
    {
      limit >= 4 && disk[0].Present? && Within(Files(), limit)
    }

    constructor (files: Disk, limit: nat)
      requires limit >= 4
      ensures this.limit == limit && disk == Prepared(files, limit) && Valid()
      ensures Files() == Opened(files, limit) && (Whole(Chain(files)) ==> Whole(Files()))
      ensures OpenedFrom(files, limit, disk, dropped)
    {
      this.limit := limit;
      disk, dropped := files, [];
      new;
      hide Trimmed, Chain, Within, Whole, OpenedFrom;
      for archive := 1 to 4
        invariant dropped == []
        invariant forall n | 0 <= n < 4 ::
          disk[n] == if 1 <= n < archive then TrimmedFile(files[n], limit) else files[n]
      {
        TrimOversized(archive);
      }
      if disk[0].Present? && |disk[0].bytes| >= limit {
        TrimOversized(0);
        assert disk == AllTrimmed(files, limit);
        Rotate();
      } else {
        assert TrimmedFile(files[0], limit) == files[0] by {
          AlreadyShort(Content(files[0]), limit);
        }
        assert disk == AllTrimmed(files, limit);
      }
      Open();
      assert disk == Prepared(files, limit) && dropped == OpenedDropped(files, limit);
      OpenedFiles(files, limit);
      OpenedFit(files, limit);
      PreparedIsOpened(files, limit);
    }

    /** Reads up to and including the next line feed. */
    static method AfterLineFeed(content: seq<Byte>, tail: nat) returns (position: nat)
      requires tail <= |content|
      ensures var feed := FirstLineFeed(content, tail);
        position == if feed < |content| then feed + 1 else |content|
    {
      position := tail;
      var found := false;
      while position < |content| && !found
        invariant tail <= position <= |content|
        invariant if found then position == FirstLineFeed(content, tail) + 1 <= |content|
                  else FirstLineFeed(content, position) == FirstLineFeed(content, tail)
        decreases |content| - position
      {
        found := content[position] == LINE_FEED;
        position := position + 1;
      }
    }

    /** Skips the continuation bytes of a character that was cut. */
    static method ToBoundary(content: seq<Byte>, tail: nat) returns (position: nat)
      requires tail <= |content|
      ensures position == FirstBoundary(content, tail)
    {
      position := tail;
      while position < |content| && Tail(content[position])
        invariant tail <= position <= |content|
        invariant FirstBoundary(content, position) == FirstBoundary(content, tail)
      {
        position := position + 1;
      }
    }

    method TrimOversized(name: nat)
      requires name < 4
      modifies this`disk
      ensures disk == old(disk)[name := TrimmedFile(old(disk)[name], limit)]
      ensures RetainsFile(old(disk)[name], limit, disk[name]) && forall n | 0 <= n < 4 && n != name :: disk[n] == old(disk)[n]
    {
      hide Retains;
      TrimRetains(Content(disk[name]), limit);
      if !disk[name].Present? || |disk[name].bytes| <= limit {
        return;
      }
      hide TrimStart;
      var content := disk[name].bytes;
      var position := RetainedFrom(content, limit);
      disk := disk[name := Present(content[position..])];
    }

    /** After the first line feed of the last `limit` bytes, or at their first character boundary. */
    static method RetainedFrom(content: seq<Byte>, limit: nat) returns (position: nat)
      requires limit < |content|
      ensures position == TrimStart(content, limit)
    {
      hide WellFormed, FirstLineFeed, FirstBoundary;
      var tail := |content| - limit;
      position := AfterLineFeed(content, tail);
      if position == |content| {
        position := ToBoundary(content, tail);
      }
    }

    /** A move refuses to overwrite: the target must not exist. */
    method Move(source: nat, target: nat)
      requires source < 4 && target < 4 && disk[source].Present? && disk[target].Absent?
      modifies this`disk
      ensures disk == old(disk)[target := old(disk)[source]][source := Absent]
    {
      var file := disk[source];
      disk := disk[target := file];
      disk := disk[source := Absent];
    }

    method Rotate()
      modifies this`disk, this`dropped
      ensures disk == Shifted(old(disk)) && dropped == old(dropped) + Deleted(old(disk))
      ensures Files() == old(Files())
    {
      hide Chain;
      ghost var before := disk;
      if disk[3].Present? {
        dropped := dropped + [disk[3].bytes];
        disk := disk[3 := Absent];
      }
      var archive := 2;
      while archive >= 1
        invariant 0 <= archive <= 2 && dropped == old(dropped) + Deleted(before)
        invariant archive == 2 ==> disk == [before[0], before[1], before[2], Absent]
        invariant archive == 1 ==> disk == [before[0], before[1], Absent, before[2]]
        invariant archive == 0 ==> disk == [before[0], Absent, before[1], before[2]]
      {
        if disk[archive].Present? {
          Move(archive, archive + 1);
        }
        archive := archive - 1;
      }
      if disk[0].Present? {
        Move(0, 1);
      }
      assert disk == Shifted(before);
      RotatedFiles(old(dropped), before);
    }

    method Open()
      modifies this`disk
      ensures disk == if old(disk)[0].Present? then old(disk) else old(disk)[0 := Present([])]
    {
      if disk[0].Absent? {
        disk := disk[0 := Present([])];
      }
    }

    /** Makes room for the rest of the record if it does not fit behind what is there. */
    method MakeRoom(more: nat)
      requires Valid()
      modifies this`disk, this`dropped
      ensures Valid() && old(dropped) <= dropped
      ensures Files() == if Full(old(disk), more, limit) then old(Files()) + [[]] else old(Files())
      ensures if Full(old(disk), more, limit)
        then disk == Shifted(old(disk))[0 := Present([])] && dropped == old(dropped) + Deleted(old(disk))
        else disk == old(disk) && dropped == old(dropped)
    {
      hide Chain, Within, Whole, Flatten, Grown;
      if |disk[0].bytes| > 0 && |disk[0].bytes| + more > limit {
        ActiveIsLast(dropped, disk, limit);
        Rotate();
        ShiftedFiles(dropped, old(disk));
        Open();
        FileBegins(old(Files()));
      }
    }

    /** How much of the rest of a record goes into a file with `room` bytes left: all of it, or as
        much as fits, cut back to a character boundary. */
    method ChunkSize(rest: seq<Byte>, room: nat) returns (count: nat)
      requires rest != [] && WellFormed(rest) && (|rest| <= room || room >= 4)
      ensures 0 < count <= |rest| && count <= room && Boundary(rest, count)
      ensures |rest| <= room ==> count == |rest|
      ensures forall n | count < n <= |rest| && n <= room :: !Boundary(rest, n)
    {
      count := if room < |rest| then room else |rest|;
      if count < |rest| {
        BoundaryWithinFour(rest, count - 3);
        BoundaryAtStart(rest);
      }
      while count < |rest| && Tail(rest[count])
        invariant 0 < count <= |rest| && count <= room
        invariant |rest| <= room ==> count == |rest|
        invariant forall n | count < n <= |rest| && n <= room :: !Boundary(rest, n)
        invariant count < |rest| ==> exists j :: 0 < j <= count && !Tail(rest[j])
        decreases count
      {
        count := count - 1;
      }
    }

    method Append(chunk: seq<Byte>)
      requires Valid() && |disk[0].bytes| + |chunk| <= limit
      modifies this`disk
      ensures Valid() && disk == old(disk)[0 := Present(Content(old(disk)[0]) + chunk)]
      ensures old(Files()) != [] && Files() == Extended(old(Files()), chunk)
    {
      hide Chain;
      ActiveIsLast(dropped, disk, limit);
      disk := disk[0 := Present(disk[0].bytes + chunk)];
    }

    /** One pass of the writing loop: makes room, and appends what fits of the rest of the record. */
    method WriteChunk(rest: seq<Byte>) returns (count: nat)
      requires Valid() && rest != [] && WellFormed(rest)
      modifies this`disk, this`dropped
      ensures Valid() && old(dropped) <= dropped && Grown(old(Files()), Files())
      ensures 0 < count <= |rest| && WellFormed(rest[count..])
      ensures Flatten(Files()) == old(Flatten(Files())) + rest[..count]
      ensures old(Whole(Files())) ==> Whole(Files())
      ensures |rest| <= limit ==> count == |rest|
      ensures ChunkGoesIn(old(disk), old(dropped), disk, dropped, rest[..count], |rest|, limit)
      ensures forall n | count < n <= |rest| && |disk[0].bytes| + (n - count) <= limit :: !Boundary(rest, n)
      ensures var shift := Full(old(disk), |rest|, limit);
        && disk == Written(old(disk), shift, rest[..count])
        && dropped == if shift then old(dropped) + Deleted(old(disk)) else old(dropped)
    {
      hide WellFormed, Flatten, Chain, Within, Whole, Grown, Extended, ChunkGoesIn;
      ghost var before, earlier, shift := disk, Files(), Full(disk, |rest|, limit);
      ActiveIsLast(dropped, disk, limit);
      MakeRoom(|rest|);
      ActiveIsLast(dropped, disk, limit);
      var room := limit - |disk[0].bytes|;
      count := ChunkSize(rest, room);
      CutAtBoundary(rest, count);
      WrittenAfterRoom(before, shift, disk, rest[..count]);
      Append(rest[..count]);
      ChunkWritten(earlier, shift, rest[..count]);
      WrittenGoesIn(before, old(dropped), |rest|, limit, rest[..count]);
    }

    /** Appends one line. Main results: every byte is kept in order; no file that was left behind is
        altered, so only whole oldest archives are dropped; every file stays within the limit and
        keeps whole characters; and a record that fits in a file is never split. */
    method WriteLine(line: seq<Scalar>)
      requires Valid()
      modifies this`disk, this`dropped
      ensures Valid() && old(dropped) <= dropped && Grown(old(Files()), Files())
      ensures Flatten(Files()) == old(Flatten(Files())) + EncodeAll(line + NEWLINE)
      ensures old(Whole(Files())) ==> Whole(Files())
      ensures var record := EncodeAll(line + NEWLINE);
        |record| <= limit ==> ChunkGoesIn(old(disk), old(dropped), disk, dropped, record, |record|, limit)
      ensures var record, shift := EncodeAll(line + NEWLINE), Full(old(disk), |EncodeAll(line + NEWLINE)|, limit);
        |record| <= limit ==>
          disk == Written(old(disk), shift, record) &&
          dropped == if shift then old(dropped) + Deleted(old(disk)) else old(dropped)
    {
      hide EncodeAll, WellFormed, Flatten, Written, Chain, Within, Whole, Grown, Full, Deleted, ChunkGoesIn;
      var bytes := EncodeAll(line + NEWLINE);
      EncodingIsWellFormed(line + NEWLINE);
      RecordNotEmpty(line);
      var offset := 0;
      assert bytes[..0] == [] && bytes[0..] == bytes && Flatten(Files()) + [] == Flatten(Files());
      assert bytes[..|bytes|] == bytes;
      ActiveIsLast(dropped, disk, limit);
      GrownAtFirst(Files());
      while offset < |bytes|
        invariant 0 <= offset <= |bytes| && Valid() && old(dropped) <= dropped
        invariant WellFormed(bytes[offset..])
        invariant Flatten(Files()) == old(Flatten(Files())) + bytes[..offset]
        invariant Grown(old(Files()), Files()) && (old(Whole(Files())) ==> Whole(Files()))
        invariant offset == 0 ==> disk == old(disk) && dropped == old(dropped)
        invariant 0 < offset && |bytes| <= limit ==> offset == |bytes|
        invariant 0 < offset && |bytes| <= limit ==> disk == Written(old(disk), Full(old(disk), |bytes|, limit), bytes)
        invariant 0 < offset && |bytes| <= limit ==>
          dropped == if Full(old(disk), |bytes|, limit) then old(dropped) + Deleted(old(disk)) else old(dropped)
        decreases |bytes| - offset
      {
        ghost var earlier := Files();
        var count := WriteChunk(bytes[offset..]);
        GrownSteps(old(Files()), earlier, Files());
        NextChunk(bytes, offset, count);
        offset := offset + count;
      }
      WrittenGoesIn(old(disk), old(dropped), |bytes|, limit, bytes);
    }
  }

  /** The records of several lines, one after the other. */
  function Records(lines: seq<seq<Scalar>>): seq<Byte> {
    if lines == [] then [] else Records(lines[..|lines| - 1]) + EncodeAll(lines[|lines| - 1] + NEWLINE)
  }

  /** A whole run of the host over its log: open it, then write every line the child produced. What
      the files there ever were hold, joined together, is what the trimmed files held followed by
      every record. The dropped ones are the oldest of them, whole and as they were left, each within
      the limit; the rest are retained. */
  method RunHost(files: Disk, limit: nat, lines: seq<seq<Scalar>>) returns (log: RotatingLog)
    requires limit >= 4
    ensures fresh(log) && log.limit == limit && log.Valid() && (Whole(Chain(files)) ==> Whole(log.Files()))
    ensures exists disk, dropped :: OpenedFrom(files, limit, disk, dropped) && RunsOn(disk, dropped, log.disk, log.dropped, Records(lines))
    ensures Grown(Opened(files, limit), log.dropped + Chain(log.disk))
    ensures Flatten(log.dropped + Chain(log.disk)) == Flatten(Opened(files, limit)) + Records(lines)
    ensures Flatten(log.dropped) + History(log.disk) == History(AllTrimmed(files, limit)) + Records(lines)
  {
    hide Flatten, EncodeAll, Opened, Chain, Whole, Within, Grown, OpenedFrom;
    log := new RotatingLog(files, limit);
    ghost var disk, dropped := log.disk, log.dropped;
    ghost var opening := log.Files();
    ActiveIsLast(log.dropped, log.disk, limit);
    GrownAtFirst(opening);
    assert Flatten(opening) + [] == Flatten(opening);
    for i := 0 to |lines|
      invariant log.limit == limit && log.Valid() && (Whole(Chain(files)) ==> Whole(log.Files()))
      invariant Flatten(log.Files()) == Flatten(opening) + Records(lines[..i]) && Grown(opening, log.Files())
    {
      ghost var before := log.Files();
      log.WriteLine(lines[i]);
      GrownSteps(opening, before, log.Files());
      RecordsExtend(Flatten(opening), lines, i);
    }
    assert lines[..|lines|] == lines;
    FilesAreEverything(log.dropped, log.disk);
    OpeningHistory(files, limit);
    assert RunsOn(disk, dropped, log.disk, log.dropped, Records(lines));
  }

  /** From one state of the log to a later one: no file left behind is altered, and the records are
      all that was added. */
  ghost predicate RunsOn(before: Disk, droppedBefore: seq<seq<Byte>>, after: Disk, droppedAfter: seq<seq<Byte>>,
                         records: seq<Byte>)
  {
    && Grown(droppedBefore + Chain(before), droppedAfter + Chain(after))
    && Flatten(droppedAfter + Chain(after)) == Flatten(droppedBefore + Chain(before)) + records
  }

  lemma RecordsExtend(opening: seq<Byte>, lines: seq<seq<Scalar>>, i: nat)
    requires i < |lines|
    ensures opening + Records(lines[..i]) + EncodeAll(lines[i] + NEWLINE) == opening + Records(lines[..i + 1])
  {
    hide EncodeAll;
    assert lines[..i + 1][..i] == lines[..i];
  }

  lemma OpeningHistory(files: Disk, limit: nat)
    ensures Flatten(Opened(files, limit)) == History(AllTrimmed(files, limit))
  {
    hide Chain, Flatten, AllTrimmed, History;
    var trimmed := AllTrimmed(files, limit);
    ChainIsHistory(trimmed);
    FlattenConcat(Chain(trimmed), [[]]);
    FlattenKept(Present([]));
  }

  /** A record is its line in UTF-8 followed by a carriage return and a line feed. */
  lemma {:induction false} RecordIsLine(line: seq<Scalar>)
    ensures EncodeAll(line + NEWLINE) == EncodeAll(line) + [13, 10]
  {
    hide Encode, EncodeAll;
    if line == [] {
      assert line + NEWLINE == NEWLINE;
      NewlineBytes();
    } else {
      RecordIsLine(line[1..]);
      assert (line + NEWLINE)[1..] == line[1..] + NEWLINE;
      EncodeFirst(line);
      EncodeFirst(line + NEWLINE);
    }
  }

  lemma EncodeFirst(text: seq<Scalar>)
    requires text != []
    ensures EncodeAll(text) == Encode(text[0]) + EncodeAll(text[1..])
  {
    hide Encode;
  }

  lemma NewlineBytes()
    ensures EncodeAll([]) == [] && EncodeAll(NEWLINE) == [13, 10]
  {
    assert NEWLINE[1..] == [10] && [10][1..] == [];
    assert EncodeAll([10]) == [10] + EncodeAll([]);
  }

  lemma RecordNotEmpty(line: seq<Scalar>)
    ensures EncodeAll(line + NEWLINE) != []
  {
    var text := line + NEWLINE;
    assert |EncodeAll(text)| >= |Encode(text[0])| > 0;
  }

  lemma NextChunk(bytes: seq<Byte>, offset: nat, count: nat)
    requires offset + count <= |bytes|
    ensures bytes[offset..][count..] == bytes[offset + count..]
    ensures forall all: seq<Byte> :: all + bytes[..offset] + bytes[offset..][..count] == all + bytes[..offset + count]
  {
    assert bytes[..offset] + bytes[offset..][..count] == bytes[..offset + count];
  }

  lemma BoundaryAtStart(s: seq<Byte>)
    requires s != [] && WellFormed(s)
    ensures !Tail(s[0])
  {
    assert CharLength(s) > 0;
  }

  lemma AlreadyShort(content: seq<Byte>, limit: nat)
    requires |content| <= limit
    ensures Trimmed(content, limit) == content
  {
  }
}
