/** The reassembly of journal output into lines, and what cutting the byte stream does to it. */
module LogLines {
  import opened Utf8

  // ----- Splitting text at newlines -----

  function IndexOfNewline(s: string): (i: int)
    ensures -1 <= i < |s|
    ensures i >= 0 ==> s[i] == '\n'
    ensures forall j :: 0 <= j < (if i < 0 then |s| else i) ==> s[j] != '\n'
  {
    if s == "" then -1
    else if s[0] == '\n' then 0
    else
      var i := IndexOfNewline(s[1..]);
      assert forall j :: 0 < j < |s| ==> s[j] == s[1..][j - 1];
      if i < 0 then -1 else i + 1
  }

  /** `s.split("\n")`. */
  function Split(s: string): (r: seq<string>)
    ensures r != []
    decreases |s|
  {
    var i := IndexOfNewline(s);
    if i < 0 then [s] else [s[..i]] + Split(s[i + 1..])
  }

  function JoinLines(lines: seq<string>): string {
    if lines == [] then "" else if |lines| == 1 then lines[0] else lines[0] + "\n" + JoinLines(lines[1..])
  }

  /** The pieces have no newline, and joined by newlines they are the text. */
  lemma {:induction false} SplitIsExact(s: string)
    ensures JoinLines(Split(s)) == s && forall i :: 0 <= i < |Split(s)| ==> '\n' !in Split(s)[i]
    decreases |s|
  {
    hide Split, IndexOfNewline;
    var i := IndexOfNewline(s);
    if i >= 0 {
      SplitUnfold(s);
      SplitIsExact(s[i + 1..]);
      assert Split(s)[1..] == Split(s[i + 1..]);
      assert s == s[..i] + "\n" + s[i + 1..];
    } else {
      SplitNoNewline(s);
    }
  }

  /** The lines of a text that are complete, and the start of the next one. */
  function Complete(s: string): seq<string> {
    Split(s)[..|Split(s)| - 1]
  }

  function Tail(s: string): string {
    Split(s)[|Split(s)| - 1]
  }

  function Kept(lines: seq<string>, keep: string -> bool): seq<string> {
    if lines == [] then [] else (if keep(lines[0]) then [lines[0]] else []) + Kept(lines[1..], keep)
  }

  lemma IndexIsFirst(s: string, i: nat)
    requires i < |s| && s[i] == '\n' && forall j :: 0 <= j < i ==> s[j] != '\n'
    ensures IndexOfNewline(s) == i
  {
  }

  lemma SplitAtNewline(s: string, before: seq<string>, line: string)
    requires IndexOfNewline(s) >= 0 && line == s[..IndexOfNewline(s)]
    ensures before + Split(s) == before + [line] + Split(s[IndexOfNewline(s) + 1..])
  {
    hide Split, IndexOfNewline;
    SplitUnfold(s);
    var rest := Split(s[IndexOfNewline(s) + 1..]);
    assert before + ([line] + rest) == before + [line] + rest;
  }

  lemma SplitUnfold(s: string)
    requires IndexOfNewline(s) >= 0
    ensures Split(s) == [s[..IndexOfNewline(s)]] + Split(s[IndexOfNewline(s) + 1..])
  {
    hide IndexOfNewline;
  }

  lemma SplitWithoutNewline(s: string, before: seq<string>, all: string)
    requires IndexOfNewline(s) < 0 && Split(all) == before + Split(s)
    ensures Complete(all) == before && Tail(all) == s
  {
  }

  /** More text only continues the unfinished line. */
  lemma {:induction false} SplitAppend(a: string, b: string)
    ensures Split(a + b) == Complete(a) + Split(Tail(a) + b)
    decreases |a|
  {
    hide Split, IndexOfNewline;
    var i := IndexOfNewline(a);
    if i >= 0 {
      var line, rest := a[..i], a[i + 1..];
      IndexIsFirst(a + b, i);
      SplitAtNewline(a, [], line);
      assert (a + b)[..i] == line && (a + b)[i + 1..] == rest + b;
      SplitAtNewline(a + b, [], line);
      assert [] + Split(a) == Split(a) && [] + Split(a + b) == Split(a + b) && [] + [line] == [line];
      SplitAppend(rest, b);
      assert Complete(a) == [line] + Complete(rest);
      assert Tail(a) == Tail(rest);
    } else {
      SplitNoNewline(a);
    }
  }

  lemma SplitNoNewline(s: string)
    requires IndexOfNewline(s) < 0
    ensures Split(s) == [s]
  {
  }

  lemma RegroupLines(a: seq<string>, b: seq<string>, c: seq<string>)
    ensures a + (b + c) == a + b + c
  {
  }

  lemma {:induction false} KeptAppend(a: seq<string>, b: seq<string>, keep: string -> bool)
    ensures Kept(a + b, keep) == Kept(a, keep) + Kept(b, keep)
    decreases |a|
  {
    if a == [] {
      assert a + b == b;
    } else {
      assert (a + b)[1..] == a[1..] + b;
      KeptAppend(a[1..], b, keep);
      RegroupLines(if keep(a[0]) then [a[0]] else [], Kept(a[1..], keep), Kept(b, keep));
    }
  }

  lemma {:induction false} KeptLines(lines: seq<string>, keep: string -> bool)
    ensures forall line :: line in Kept(lines, keep) <==> line in lines && keep(line)
  {
    if lines != [] {
      KeptLines(lines[1..], keep);
    }
  }

  // ----- The reader -----

  datatype Attempt = Attempt(ok: bool, entries: seq<string>)

  function Joined(chunks: seq<string>): string {
    if chunks == [] then "" else Joined(chunks[..|chunks| - 1]) + chunks[|chunks| - 1]
  }

  /** The lines that `flushTextLine` lets through; `matches` are the log filters of the command. */
  function Shows(matches: string -> bool): string -> bool {
    (line: string) => line != "" && line != "-- No entries --" && matches(line)
  }

  /** The event handlers of one `journalctl` attempt. */
  class LineReader {
    const follow: bool
    const matches: string -> bool
    var stdoutBuffer: string
    var filteredEntries: seq<string>
    var written: seq<string>
    ghost var received: string

    ghost predicate Valid()
      reads this
    {
      stdoutBuffer == Tail(received) && Collected(Kept(Complete(received), Shows(matches)))
    }

    /** The lines that have come out: as entries, or with `follow` written through. */
    ghost predicate Collected(lines: seq<string>)
      reads this
    {
      if follow then written == lines && filteredEntries == [] else filteredEntries == lines && written == []
    }

    constructor (follow: bool, matches: string -> bool)
      ensures Valid() && received == "" && this.follow == follow && this.matches == matches
    {
      this.follow, this.matches := follow, matches;
      stdoutBuffer, filteredEntries, written, received := "", [], [], "";
    }

    method FlushTextLine(rawLine: string, ghost lines: seq<string>)
      requires Collected(lines)
      modifies this`filteredEntries, this`written
      ensures Collected(lines + Kept([rawLine], Shows(matches)))
    {
      if rawLine == "" || rawLine == "-- No entries --" || !matches(rawLine) {
        assert lines + [] == lines;
        return;
      }
      if follow {
        written := written + [rawLine];
      } else {
        filteredEntries := filteredEntries + [rawLine];
      }
    }

    /** The `data` handler: append the chunk, then cut off line after line. */
    method OnData(chunk: string)
      requires Valid()
      modifies this
      ensures Valid() && received == old(received) + chunk
    {
      hide Split, Complete, Tail, Kept, Shows, IndexOfNewline;
      ghost var keep, before := Shows(matches), Complete(received);
      SplitAppend(received, chunk);
      stdoutBuffer := stdoutBuffer + chunk;
      ghost var all := Split(received + chunk);
      var newlineIndex := IndexOfNewline(stdoutBuffer);
      while newlineIndex >= 0
        invariant newlineIndex == IndexOfNewline(stdoutBuffer)
        invariant all == before + Split(stdoutBuffer)
        invariant Collected(Kept(before, keep))
        invariant received == old(received)
        decreases |stdoutBuffer|
      {
        var line := stdoutBuffer[..newlineIndex];
        SplitAtNewline(stdoutBuffer, before, line);
        stdoutBuffer := stdoutBuffer[newlineIndex + 1..];
        FlushTextLine(line, Kept(before, keep));
        KeptAppend(before, [line], keep);
        before := before + [line];
        newlineIndex := IndexOfNewline(stdoutBuffer);
      }
      received := received + chunk;
      SplitWithoutNewline(stdoutBuffer, before, received);
    }

    /** The `close` handler: the rest of the buffer is a line too. A failed attempt has no entries. */
    method OnClose(code: int) returns (r: Attempt)
      requires Valid()
      modifies this
      ensures Collected(Kept(Split(received), Shows(matches))) && received == old(received)
      ensures r ==
        if code == 0 && !follow then Attempt(true, Kept(Split(received), Shows(matches))) else Attempt(code == 0, [])
    {
      ghost var complete, keep := Complete(received), Shows(matches);
      KeptAppend(complete, [stdoutBuffer], keep);
      assert Split(received) == complete + [stdoutBuffer];
      if |stdoutBuffer| > 0 {
        FlushTextLine(stdoutBuffer, Kept(complete, keep));
      } else {
        assert Kept([stdoutBuffer], keep) == [];
      }
      if code != 0 {
        return Attempt(false, []);
      }
      return Attempt(true, filteredEntries);
    }
  }

  /** A whole attempt: however the text is cut into chunks, the entries are the filtered lines of
      the newline split of the whole text. */
  method RunAttempt(chunks: seq<string>, matches: string -> bool) returns (r: Attempt)
    ensures r == Attempt(true, Kept(Split(Joined(chunks)), Shows(matches)))
    ensures forall line :: line in r.entries <==>
      line in Split(Joined(chunks)) && line != "" && line != "-- No entries --" && matches(line)
  {
    var reader := new LineReader(false, matches);
    for i := 0 to |chunks|
      invariant reader.Valid() && reader.received == Joined(chunks[..i]) && fresh(reader)
      invariant !reader.follow && reader.matches == matches
    {
      assert chunks[..i + 1][..i] == chunks[..i];
      reader.OnData(chunks[i]);
    }
    assert chunks[..|chunks|] == chunks;
    r := reader.OnClose(0);
    KeptLines(Split(Joined(chunks)), Shows(matches));
  }

  // ----- Chunks of bytes -----

  const REPLACEMENT := '\U{FFFD}'

  ghost predicate Starts(bytes: seq<Byte>, c: char) {
    Encode(c) <= bytes
  }

  /** The first `n` bytes are the beginning of some character. */
  ghost predicate IsTruncated(bytes: seq<Byte>, n: nat) {
    n <= |bytes| && exists c :: bytes[..n] <= Encode(c)
  }

  /** How many bytes one replacement character stands for: the longest beginning of a character,
      or one byte. */
  ghost function BadLength(bytes: seq<Byte>): (n: nat)
    requires bytes != []
    ensures 1 <= n <= |bytes|
  {
    if IsTruncated(bytes, 3) then 3 else if IsTruncated(bytes, 2) then 2 else 1
  }

  /** `Buffer.toString()`: characters as they are, and a replacement for each piece that is none. */
  ghost function Decode(bytes: seq<Byte>): string
    decreases |bytes|
  {
    if bytes == [] then ""
    else if exists c :: Starts(bytes, c) then
      var c :| Starts(bytes, c);
      [c] + Decode(bytes[|Encode(c)|..])
    else [REPLACEMENT] + Decode(bytes[BadLength(bytes)..])
  }

  /** The text that the reader gets from chunks of bytes: each chunk is decoded by itself. */
  ghost function Received(chunks: seq<seq<Byte>>): string {
    if chunks == [] then "" else Decode(chunks[0]) + Received(chunks[1..])
  }

  function Flat(chunks: seq<seq<Byte>>): seq<Byte> {
    if chunks == [] then [] else chunks[0] + Flat(chunks[1..])
  }

  /** The six-bit groups of a code determine it. */
  lemma Sextets(n: nat)
    ensures n == 64 * (n / 64) + n % 64
    ensures n == 4096 * (n / 4096) + 64 * (n / 64 % 64) + n % 64
  {
    assert n / 64 / 64 == n / 4096;
  }

  lemma FourSextets(n: nat)
    ensures n == 262144 * (n / 262144) + 4096 * (n / 4096 % 64) + 64 * (n / 64 % 64) + n % 64
  {
    Sextets(n);
    assert n / 4096 / 64 == n / 262144;
  }

  /** The code that the bytes of a character spell. */
  function Code(r: seq<Byte>): int {
    if |r| == 1 then r[0]
    else if |r| == 2 then 64 * (r[0] as int - 0xC0) + (r[1] as int - 0x80)
    else if |r| == 3 then 4096 * (r[0] as int - 0xE0) + 64 * (r[1] as int - 0x80) + (r[2] as int - 0x80)
    else if |r| == 4 then
      262144 * (r[0] as int - 0xF0) + 4096 * (r[1] as int - 0x80) + 64 * (r[2] as int - 0x80) + (r[3] as int - 0x80)
    else 0
  }

  lemma CodeOfEncode(c: char)
    ensures Code(Encode(c)) == c as int
  {
    Sextets(c as int);
    FourSextets(c as int);
  }

  lemma EncodeInjective(c: char, d: char)
    requires Encode(c) == Encode(d)
    ensures c == d
  {
    CodeOfEncode(c);
    CodeOfEncode(d);
  }

  /** The first byte tells the length of a character. */
  lemma LeadTellsLength(c: char, d: char)
    requires Encode(c)[0] == Encode(d)[0]
    ensures |Encode(c)| == |Encode(d)|
  {
  }

  lemma StartsUnique(bytes: seq<Byte>, c: char, d: char)
    requires Starts(bytes, c) && Starts(bytes, d)
    ensures c == d
  {
    hide Encode;
    assert Encode(c)[0] == bytes[0] == Encode(d)[0];
    LeadTellsLength(c, d);
    assert Encode(c) == bytes[..|Encode(c)|] == Encode(d);
    EncodeInjective(c, d);
  }

  lemma {:induction false} EncodeAllAppend(a: string, b: string)
    ensures EncodeAll(a + b) == EncodeAll(a) + EncodeAll(b)
    decreases |a|
  {
    if a == "" {
      assert a + b == b;
    } else {
      assert (a + b)[1..] == a[1..] + b;
      EncodeAllAppend(a[1..], b);
    }
  }

  /** Decoding undoes encoding. */
  lemma {:induction false} DecodeEncoded(s: string)
    ensures Decode(EncodeAll(s)) == s
    decreases |s|
  {
    hide Encode;
    if s != "" {
      var bytes := EncodeAll(s);
      assert Starts(bytes, s[0]);
      var c :| Starts(bytes, c) && Decode(bytes) == [c] + Decode(bytes[|Encode(c)|..]);
      StartsUnique(bytes, c, s[0]);
      assert bytes[|Encode(c)|..] == EncodeAll(s[1..]);
      DecodeEncoded(s[1..]);
    }
  }

  /** A character that takes more than one byte. */
  predicate IsWide(c: char) {
    c as int >= 0x80
  }

  function WideCount(s: string): nat {
    if s == "" then 0 else (if IsWide(s[0]) then 1 else 0) + WideCount(s[1..])
  }

  lemma {:induction false} WideAppend(a: string, b: string)
    ensures WideCount(a + b) == WideCount(a) + WideCount(b)
    decreases |a|
  {
    if a == "" {
      assert a + b == b;
    } else {
      assert (a + b)[1..] == a[1..] + b;
      WideAppend(a[1..], b);
    }
  }

  /** How many wide characters begin in the bytes. */
  function WideLeads(bytes: seq<Byte>): nat {
    if bytes == [] then 0 else (if bytes[0] >= 0xC0 then 1 else 0) + WideLeads(bytes[1..])
  }

  lemma {:induction false} LeadsAppend(a: seq<Byte>, b: seq<Byte>)
    ensures WideLeads(a + b) == WideLeads(a) + WideLeads(b)
    decreases |a|
  {
    if a == [] {
      assert a + b == b;
    } else {
      assert (a + b)[1..] == a[1..] + b;
      LeadsAppend(a[1..], b);
    }
  }

  lemma {:induction false} LeadsOfContinuations(bytes: seq<Byte>)
    requires forall i :: 0 <= i < |bytes| ==> IsContinuation(bytes[i])
    ensures WideLeads(bytes) == 0
  {
    if bytes != [] {
      LeadsOfContinuations(bytes[1..]);
    }
  }

  lemma WideIffLead(c: char)
    ensures IsWide(c) <==> Encode(c)[0] >= 0xC0
  {
  }

  /** A beginning of a character has the one lead byte of that character, if it is wide. */
  lemma LeadsOfPrefix(bytes: seq<Byte>, c: char)
    requires bytes != [] && bytes <= Encode(c)
    ensures WideLeads(bytes) == if IsWide(c) then 1 else 0
  {
    WideIffLead(c);
    hide Encode;
    assert forall i :: 0 <= i < |bytes| ==> bytes[i] == Encode(c)[i];
    LeadsOfContinuations(bytes[1..]);
  }

  lemma {:induction false} LeadsOfEncoded(s: string)
    ensures WideLeads(EncodeAll(s)) == WideCount(s)
    decreases |s|
  {
    hide Encode, IsWide;
    if s != "" {
      LeadsOfPrefix(Encode(s[0]), s[0]);
      LeadsAppend(Encode(s[0]), EncodeAll(s[1..]));
      LeadsOfEncoded(s[1..]);
    }
  }

  /** One step of the decoder takes one piece, with at most one lead byte, and gives a wide
      character for it if it has one or starts in the middle of a character. */
  lemma DecodeStep(bytes: seq<Byte>) returns (n: nat, c: char)
    requires bytes != []
    ensures 1 <= n <= |bytes| && Decode(bytes) == [c] + Decode(bytes[n..])
    ensures WideLeads(bytes[..n]) <= WideCount([c])
    ensures IsContinuation(bytes[0]) ==> WideLeads(bytes[..n]) < WideCount([c])
  {
    hide Encode, WideLeads;
    if exists c :: Starts(bytes, c) {
      c :| Starts(bytes, c) && Decode(bytes) == [c] + Decode(bytes[|Encode(c)|..]);
      n := |Encode(c)|;
      assert bytes[..n] == Encode(c) && bytes[0] == Encode(c)[0];
      LeadsOfPrefix(bytes[..n], c);
    } else {
      n, c := BadLength(bytes), REPLACEMENT;
      LeadsOfBad(bytes);
    }
    assert [c][1..] == "";
  }

  lemma LeadsOfBad(bytes: seq<Byte>)
    requires bytes != []
    ensures WideLeads(bytes[..BadLength(bytes)]) <= if IsContinuation(bytes[0]) then 0 else 1
  {
    hide Encode, IsWide;
    var n := BadLength(bytes);
    if n > 1 {
      var c :| bytes[..n] <= Encode(c);
      assert bytes[..n][0] == bytes[0] == Encode(c)[0];
      LeadsOfPrefix(bytes[..n], c);
    } else {
      assert bytes[..1][1..] == [];
    }
  }

  /** Bytes decode to at least one wide character for each lead byte of one, and to more if they
      start in the middle of a character. */
  lemma {:induction false} DecodeIsNoNarrower(bytes: seq<Byte>)
    ensures WideCount(Decode(bytes)) >= WideLeads(bytes)
    ensures bytes != [] && IsContinuation(bytes[0]) ==> WideCount(Decode(bytes)) > WideLeads(bytes)
    decreases |bytes|
  {
    if bytes == [] {
      return;
    }
    hide Decode, WideLeads, WideCount;
    var n, c := DecodeStep(bytes);
    DecodeIsNoNarrower(bytes[n..]);
    LeadsAppend(bytes[..n], bytes[n..]);
    WideAppend([c], Decode(bytes[n..]));
    assert bytes == bytes[..n] + bytes[n..];
  }

  /** No chunk starts in the middle of a character. */
  ghost predicate CutBetweenCharacters(chunks: seq<seq<Byte>>) {
    forall i :: 0 <= i < |chunks| && chunks[i] != [] ==> !IsContinuation(chunks[i][0])
  }

  lemma {:induction false} ReceivedIsNoNarrower(chunks: seq<seq<Byte>>)
    ensures WideCount(Received(chunks)) >= WideLeads(Flat(chunks))
    ensures !CutBetweenCharacters(chunks) ==> WideCount(Received(chunks)) > WideLeads(Flat(chunks))
    decreases |chunks|
  {
    hide Decode, IsContinuation;
    if chunks != [] {
      hide WideCount, WideLeads;
      DecodeIsNoNarrower(chunks[0]);
      ReceivedIsNoNarrower(chunks[1..]);
      LeadsAppend(chunks[0], Flat(chunks[1..]));
      WideAppend(Decode(chunks[0]), Received(chunks[1..]));
      assert forall i :: 0 < i < |chunks| ==> chunks[i] == chunks[1..][i - 1];
    }
  }

  /** The first character of a text that is cut between characters lies before the cut. */
  lemma FirstBeforeCut(s: string, x: seq<Byte>, y: seq<Byte>)
    requires s != "" && x != [] && EncodeAll(s) == x + y && (y != [] ==> !IsContinuation(y[0]))
    ensures Encode(s[0]) <= x && x == Encode(s[0]) + x[|Encode(s[0])|..]
    ensures EncodeAll(s[1..]) == x[|Encode(s[0])|..] + y
  {
    hide Encode;
    var e, whole := Encode(s[0]), x + y;
    assert whole == e + EncodeAll(s[1..]);
    assert forall i :: 0 <= i < |e| ==> whole[i] == e[i];
    assert y != [] ==> whole[|x|] == y[0];
    assert |x| >= |e|;
    assert x[..|e|] == whole[..|e|] == e;
    assert whole[|e|..] == EncodeAll(s[1..]);
  }

  lemma Regroup(c: char, a: string, b: string)
    ensures [c] + a + b == [c] + (a + b)
  {
  }

  lemma EncodeFirst(c: char, s: string)
    ensures EncodeAll([c] + s) == Encode(c) + EncodeAll(s)
  {
    hide Encode;
    assert ([c] + s)[1..] == s;
  }

  /** A text cut between characters is two texts. */
  lemma {:induction false} SplitEncoded(s: string, x: seq<Byte>, y: seq<Byte>) returns (a: string, b: string)
    requires EncodeAll(s) == x + y && (y != [] ==> !IsContinuation(y[0]))
    ensures s == a + b && x == EncodeAll(a) && y == EncodeAll(b)
    decreases |s|
  {
    if x == [] {
      hide Encode;
      assert x + y == y;
      a, b := "", s;
    } else {
      hide Encode;
      FirstBeforeCut(s, x, y);
      hide EncodeAll;
      var c, tail, e := s[0], s[1..], Encode(s[0]);
      var a', b' := SplitEncoded(tail, x[|e|..], y);
      a, b := [c] + a', b';
      EncodeFirst(c, a');
      assert s == [c] + tail;
      Regroup(c, a', b');
    }
  }

  /** Exactly when the reader gets the text that was sent: when no chunk starts in the middle of
      a character. A character that a chunk boundary cuts comes out as replacement characters. */
  lemma {:induction false} TextSurvivesExactlyBetweenCharacters(s: string, chunks: seq<seq<Byte>>)
    requires Flat(chunks) == EncodeAll(s)
    ensures Received(chunks) == s <==> CutBetweenCharacters(chunks)
    decreases |chunks|
  {
    hide Decode;
    if !CutBetweenCharacters(chunks) {
      ReceivedIsNoNarrower(chunks);
      LeadsOfEncoded(s);
    } else {
      ReceivedWhenCutBetween(s, chunks);
    }
  }

  lemma {:induction false} ReceivedWhenCutBetween(s: string, chunks: seq<seq<Byte>>)
    requires Flat(chunks) == EncodeAll(s) && CutBetweenCharacters(chunks)
    ensures Received(chunks) == s
    decreases |chunks|
  {
    hide Decode, Encode;
    if chunks == [] {
      assert s == "";
    } else {
      var rest := Flat(chunks[1..]);
      FlatStart(chunks[1..]);
      assert CutBetweenCharacters(chunks[1..]);
      var a, b := SplitEncoded(s, chunks[0], rest);
      DecodeEncoded(a);
      ReceivedWhenCutBetween(b, chunks[1..]);
    }
  }

  lemma {:induction false} FlatStart(chunks: seq<seq<Byte>>)
    requires CutBetweenCharacters(chunks)
    ensures Flat(chunks) != [] ==> !IsContinuation(Flat(chunks)[0])
    decreases |chunks|
  {
    if chunks != [] {
      FlatStart(chunks[1..]);
      assert forall i :: 0 <= i < |chunks[1..]| ==> chunks[1..][i] == chunks[i + 1];
    }
  }

  lemma {:induction false} JoinedFront(chunks: seq<string>)
    requires chunks != []
    ensures Joined(chunks) == chunks[0] + Joined(chunks[1..])
    decreases |chunks|
  {
    var last := |chunks| - 1;
    if last == 0 {
      assert chunks[1..] == [] && chunks[..0] == [];
    } else {
      var init, rest := chunks[..last], chunks[1..];
      JoinedFront(init);
      assert init[0] == chunks[0] && init[1..] == rest[..last - 1] && rest[last - 1] == chunks[last];
      assert Joined(rest) == Joined(rest[..last - 1]) + chunks[last];
      assert Joined(chunks) == Joined(init) + chunks[last];
    }
  }

  lemma {:induction false} JoinedDecoded(chunks: seq<seq<Byte>>, decoded: seq<string>)
    requires |decoded| == |chunks| && forall i :: 0 <= i < |chunks| ==> decoded[i] == Decode(chunks[i])
    ensures Joined(decoded) == Received(chunks)
    decreases |chunks|
  {
    hide Decode;
    if chunks != [] {
      JoinedFront(decoded);
      JoinedDecoded(chunks[1..], decoded[1..]);
    }
  }

  /** The entries of an attempt on a byte stream: if no chunk starts in the middle of a character
      they are the filtered lines of the text that was sent, however it was cut. */
  lemma EntriesOfByteStream(s: string, chunks: seq<seq<Byte>>, decoded: seq<string>, matches: string -> bool)
    requires Flat(chunks) == EncodeAll(s) && CutBetweenCharacters(chunks)
    requires |decoded| == |chunks| && forall i :: 0 <= i < |chunks| ==> decoded[i] == Decode(chunks[i])
    ensures Kept(Split(Joined(decoded)), Shows(matches)) == Kept(Split(s), Shows(matches))
  {
    hide Decode;
    JoinedDecoded(chunks, decoded);
    ReceivedWhenCutBetween(s, chunks);
  }

  // ----- The entries of a cut stream -----

  function WideInLines(lines: seq<string>): nat {
    if lines == [] then 0 else WideCount(lines[0]) + WideInLines(lines[1..])
  }

  lemma WideInFirst(line: string, lines: seq<string>)
    ensures WideInLines([line] + lines) == WideCount(line) + WideInLines(lines)
  {
    hide WideCount;
    assert ([line] + lines)[1..] == lines;
  }

  lemma WideAroundNewline(line: string, rest: string)
    ensures WideCount(line + "\n" + rest) == WideCount(line) + WideCount(rest)
  {
    WideAppend(line + "\n", rest);
    WideAppend(line, "\n");
    NarrowText("\n");
    hide WideCount;
  }

  /** Splitting loses newlines only. */
  lemma {:induction false} SplitKeepsWide(s: string)
    ensures WideInLines(Split(s)) == WideCount(s)
    decreases |s|
  {
    hide Split, IndexOfNewline, WideCount, WideInLines;
    var i := IndexOfNewline(s);
    if i >= 0 {
      var line, rest := s[..i], s[i + 1..];
      SplitUnfold(s);
      SplitKeepsWide(rest);
      WideInFirst(line, Split(rest));
      assert s == line + "\n" + rest;
      WideAroundNewline(line, rest);
    } else {
      SplitNoNewline(s);
      WideInOnly(s);
    }
  }

  lemma WideInOnly(line: string)
    ensures WideInLines([line]) == WideCount(line)
  {
    hide WideCount;
    assert [line][1..] == [];
  }

  /** The filters of the command let through every line that has a wide character. */
  ghost predicate KeepsWideLines(matches: string -> bool) {
    forall line :: WideCount(line) > 0 ==> matches(line)
  }

  lemma DroppedLineIsNarrow(line: string, matches: string -> bool)
    requires KeepsWideLines(matches) && !Shows(matches)(line)
    ensures WideCount(line) == 0
  {
    if line == "-- No entries --" {
      NarrowText(line);
    }
  }

  lemma {:induction false} NarrowText(s: string)
    requires forall i :: 0 <= i < |s| ==> !IsWide(s[i])
    ensures WideCount(s) == 0
  {
    if s != "" {
      NarrowText(s[1..]);
    }
  }

  lemma {:induction false} KeptKeepsWide(lines: seq<string>, matches: string -> bool)
    requires KeepsWideLines(matches)
    ensures WideInLines(Kept(lines, Shows(matches))) == WideInLines(lines)
    decreases |lines|
  {
    hide WideCount, KeepsWideLines;
    if lines != [] {
      var keep := Shows(matches);
      KeptKeepsWide(lines[1..], matches);
      if keep(lines[0]) {
        WideInFirst(lines[0], Kept(lines[1..], keep));
      } else {
        DroppedLineIsNarrow(lines[0], matches);
        assert [] + Kept(lines[1..], keep) == Kept(lines[1..], keep);
      }
    }
  }

  /** With such filters the entries are those of the text that was sent exactly when no chunk
      starts in the middle of a character. */
  lemma EntriesSurviveExactlyBetweenCharacters(
    s: string, chunks: seq<seq<Byte>>, decoded: seq<string>, matches: string -> bool)
    requires Flat(chunks) == EncodeAll(s) && KeepsWideLines(matches)
    requires |decoded| == |chunks| && forall i :: 0 <= i < |chunks| ==> decoded[i] == Decode(chunks[i])
    ensures Kept(Split(Joined(decoded)), Shows(matches)) == Kept(Split(s), Shows(matches)) <==>
      CutBetweenCharacters(chunks)
  {
    hide Decode, Encode, WideCount, WideLeads, Split, Kept, Shows, KeepsWideLines, CutBetweenCharacters;
    JoinedDecoded(chunks, decoded);
    if CutBetweenCharacters(chunks) {
      ReceivedWhenCutBetween(s, chunks);
    } else {
      ReceivedIsNoNarrower(chunks);
      LeadsOfEncoded(s);
      SplitKeepsWide(Received(chunks));
      SplitKeepsWide(s);
      KeptKeepsWide(Split(Received(chunks)), matches);
      KeptKeepsWide(Split(s), matches);
    }
  }

  predicate EveryLine(line: string) {
    true
  }

  /** The letter é in two chunks of one byte each does not arrive, neither in the text nor in the
      entries of an attempt without filters. */
  lemma CutCharacterWitness()
    ensures Flat([[0xC3], [0xA9]]) == EncodeAll("\U{E9}") && Received([[0xC3], [0xA9]]) != "\U{E9}"
    ensures Kept(Split(Joined([Decode([0xC3]), Decode([0xA9])])), Shows(EveryLine)) !=
      Kept(Split("\U{E9}"), Shows(EveryLine))
  {
    hide Split, Kept, Shows, Decode;
    var chunks: seq<seq<Byte>> := [[0xC3], [0xA9]];
    assert chunks[1..] == [[0xA9]] && Flat(chunks[1..]) == [0xA9];
    assert "\U{E9}"[1..] == "";
    assert Flat(chunks) == [0xC3, 0xA9] == EncodeAll("\U{E9}");
    assert IsContinuation(chunks[1][0]);
    TextSurvivesExactlyBetweenCharacters("\U{E9}", chunks);
    EntriesSurviveExactlyBetweenCharacters("\U{E9}", chunks, [Decode([0xC3]), Decode([0xA9])], EveryLine);
  }
}
