/**
 * `WireConnectionSignatureList`: the catalog of known signatures.
 *
 * Each line of the catalog file is a signature (two runs of hex digits with
 * one whitespace character between them), then whitespace, then a name.
 * Loading keeps the lines the pattern
 *   \A([0-9a-f]+\s[0-9a-f]+)\s+(.+)   (case-insensitive)
 * accepts and skips the others; searching returns the name of every entry
 * whose signature is exactly the target, in file order.
 */
module Catalog {
  import opened Wrappers
  import opened HexFormat
  import opened Readings
  import opened SignatureCodec
  import opened Blocks

  /** A line as `gets` returns it: a '\n' can only be its last character. */
  predicate IsGetsLine(s: string)
  {
    |s| > 0 && '\n' !in s[..|s| - 1]
  }

  /** A catalog line once the line break is gone. */
  type Line = s: string | '\n' !in s

  /** `\s`: space, tab, line feed, vertical tab, form feed, carriage return. */
  predicate IsSpace(c: char)
  {
    c == ' ' || c == '\t' || c == '\n' || c == '\U{0B}' || c == '\U{0C}' || c == '\r'
  }

  /** `chomp!`: drop one trailing "\r\n", "\n" or "\r". */
  function Chomp(s: string): (line: Line)
    requires IsGetsLine(s)
    ensures |s| - 2 <= |line| <= |s| && s == line + s[|line|..]
    ensures var cut := s[|line|..]; cut == "" || cut == "\n" || cut == "\r" || cut == "\r\n"
    ensures (s[|s| - 1] == '\n' || s[|s| - 1] == '\r') ==> |line| < |s|
    ensures |s| >= 2 && s[|s| - 2..] == "\r\n" ==> |line| == |s| - 2
  {
    var n := |s|;
    if n >= 2 && s[n - 2..] == "\r\n" then
      assert s[..n - 2] == s[..n - 1][..n - 2];
      s[..n - 2]
    else if s[n - 1] == '\n' || s[n - 1] == '\r' then s[..n - 1]
    else
      assert s == s[..n - 1] + [s[n - 1]];
      s
  }

  datatype Entry = Entry(signature: string, name: string)

  /** The end of the run of hex digits that starts at i. */
  function HexRunEnd(s: string, i: nat): (j: nat)
    requires i <= |s|
    ensures i <= j <= |s|
    ensures forall k :: i <= k < j ==> IsHexDigit(s[k])
    ensures j == |s| || !IsHexDigit(s[j])
    decreases |s| - i
  {
    if i < |s| && IsHexDigit(s[i]) then HexRunEnd(s, i + 1) else i
  }

  /** The end of the run of whitespace that starts at i. */
  function SpaceRunEnd(s: string, i: nat): (j: nat)
    requires i <= |s|
    ensures i <= j <= |s|
    ensures forall k :: i <= k < j ==> IsSpace(s[k])
    ensures j == |s| || !IsSpace(s[j])
    decreases |s| - i
  {
    if i < |s| && IsSpace(s[i]) then SpaceRunEnd(s, i + 1) else i
  }

  /**
   * One way the pattern can match `line`: the first hex run is line[..a], the
   * separator line[a], the second hex run line[a + 1..b], the whitespace
   * line[b..c] and the name line[c..], at least one character.
   */
  ghost predicate ValidSplit(line: Line, a: int, b: int, c: int)
  {
    && 0 < a && a + 1 < b && b < c < |line|
    && (forall k :: 0 <= k < a ==> IsHexDigit(line[k]))
    && IsSpace(line[a])
    && (forall k :: a + 1 <= k < b ==> IsHexDigit(line[k]))
    && (forall k :: b <= k < c ==> IsSpace(line[k]))
  }

  /**
   * The match the backtracking engine reports: both hex runs as long as they
   * go, the whitespace run as long as it goes while leaving the name at least
   * one character. The signature is the first group, the name the second.
   */
  function ParseLine(line: Line): Option<Entry>
  {
    var a := HexRunEnd(line, 0);
    if a == 0 || a == |line| || !IsSpace(line[a]) then None
    else
      var b := HexRunEnd(line, a + 1);
      if b == a + 1 || b == |line| then None
      else
        var c := SpaceRunEnd(line, b);
        if c == b then None
        else if c < |line| then Some(Entry(line[..b], line[c..]))
        else if c - b >= 2 then Some(Entry(line[..b], line[c - 1..]))
        else None
  }

  /** In a valid split both hex runs end where the runs of hex digits end. */
  lemma {:induction false} SplitRuns(line: Line, a: int, b: int, c: int)
    requires ValidSplit(line, a, b, c)
    ensures a == HexRunEnd(line, 0)
    ensures b == HexRunEnd(line, a + 1)
    ensures c <= SpaceRunEnd(line, b)
  {
    HexRunCovers(line, a + 1, b);
    assert IsSpace(line[b]) && !IsHexDigit(line[b]);
  }

  lemma {:induction false} HexRunCovers(s: string, i: nat, j: nat)
    requires i <= j <= |s|
    requires forall k :: i <= k < j ==> IsHexDigit(s[k])
    ensures j <= HexRunEnd(s, i)
    decreases j - i
  {
    if i < j {
      HexRunCovers(s, i + 1, j);
    }
  }

  /**
   * A line is accepted exactly when the pattern can match it at all. The entry
   * is then the match with the longest whitespace run: the signature is the
   * same in every match, and no match leaves a shorter name.
   */
  lemma {:induction false} ParseLineMatches(line: Line)
    ensures ParseLine(line).Some? <==> exists a, b, c :: ValidSplit(line, a, b, c)
    ensures ParseLine(line).Some? ==>
      exists a, b, c :: ValidSplit(line, a, b, c) && ParseLine(line).value == Entry(line[..b], line[c..])
    ensures forall a, b, c :: ValidSplit(line, a, b, c) ==>
      && ParseLine(line).Some?
      && ParseLine(line).value.signature == line[..b]
      && |ParseLine(line).value.name| <= |line| - c
  {
    var a := HexRunEnd(line, 0);
    if ParseLine(line).Some? {
      var b := HexRunEnd(line, a + 1);
      var c := SpaceRunEnd(line, b);
      var c' := if c < |line| then c else c - 1;
      assert ValidSplit(line, a, b, c');
    }
    forall a', b', c' | ValidSplit(line, a', b', c')
      ensures ParseLine(line).Some?
      ensures ParseLine(line).value.signature == line[..b']
      ensures |ParseLine(line).value.name| <= |line| - c'
    {
      SplitRuns(line, a', b', c');
    }
  }

  /** What one line read by `gets` adds to the catalog: its entry, if accepted. */
  function LineEntries(raw: string): seq<Entry>
    requires IsGetsLine(raw)
  {
    match ParseLine(Chomp(raw))
    case Some(e) => [e]
    case None => []
  }

  /** What each line adds, line by line. */
  function LineBlocks(lines: seq<string>): seq<seq<Entry>>
    requires forall i :: 0 <= i < |lines| ==> IsGetsLine(lines[i])
  {
    seq(|lines|, i requires 0 <= i < |lines| => LineEntries(lines[i]))
  }

  /** `load` over the lines read so far: every accepted line, in order. */
  function ParseAll(lines: seq<string>): seq<Entry>
    requires forall i :: 0 <= i < |lines| ==> IsGetsLine(lines[i])
  {
    Flatten(LineBlocks(lines))
  }

  /** `search`: the name of every entry with exactly this signature, in order. */
  function Lookup(entries: seq<Entry>, target: string): seq<string>
  {
    if entries == [] then []
    else
      var last := entries[|entries| - 1];
      Lookup(entries[..|entries| - 1], target) + if last.signature == target then [last.name] else []
  }

  lemma {:induction false} LineEntriesMember(raw: string)
    requires IsGetsLine(raw)
    ensures |LineEntries(raw)| <= 1
    ensures forall e :: e in LineEntries(raw) <==> ParseLine(Chomp(raw)) == Some(e)
  {
  }

  /** Loading one more line adds that line's entry, if any, at the end. */
  lemma {:induction false} ParseAllSnoc(lines: seq<string>)
    requires lines != [] && forall i :: 0 <= i < |lines| ==> IsGetsLine(lines[i])
    ensures ParseAll(lines) == ParseAll(lines[..|lines| - 1]) + LineEntries(lines[|lines| - 1])
  {
    assert LineBlocks(lines)[..|lines| - 1] == LineBlocks(lines[..|lines| - 1]);
  }

  /** Every loaded entry comes from one line of the file, and there are no more
      entries than lines. */
  lemma {:induction false} ParseAllFromLines(lines: seq<string>)
    requires forall i :: 0 <= i < |lines| ==> IsGetsLine(lines[i])
    ensures |ParseAll(lines)| <= |lines|
    ensures forall e :: e in ParseAll(lines) ==>
      exists i :: 0 <= i < |lines| && ParseLine(Chomp(lines[i])) == Some(e)
  {
    var blocks := LineBlocks(lines);
    forall i | 0 <= i < |lines|
      ensures |blocks[i]| <= 1
    {
      LineEntriesMember(lines[i]);
    }
    FlattenShort(blocks);
    FlattenMember(blocks);
    forall e | e in ParseAll(lines)
      ensures exists i :: 0 <= i < |lines| && ParseLine(Chomp(lines[i])) == Some(e)
    {
      var i :| 0 <= i < |blocks| && e in blocks[i];
      LineEntriesMember(lines[i]);
    }
  }

  /** Every accepted line's entry is loaded. */
  lemma {:induction false} ParseAllKeepsLines(lines: seq<string>)
    requires forall i :: 0 <= i < |lines| ==> IsGetsLine(lines[i])
    ensures forall i :: 0 <= i < |lines| && ParseLine(Chomp(lines[i])).Some? ==>
      ParseLine(Chomp(lines[i])).value in ParseAll(lines)
  {
    var blocks := LineBlocks(lines);
    FlattenMember(blocks);
    forall i | 0 <= i < |lines| && ParseLine(Chomp(lines[i])).Some?
      ensures ParseLine(Chomp(lines[i])).value in ParseAll(lines)
    {
      LineEntriesMember(lines[i]);
      assert ParseLine(Chomp(lines[i])).value in blocks[i];
    }
  }

  /** Loading is line by line: two files one after the other load as each, in order. */
  lemma {:induction false} ParseAllAppend(lines: seq<string>, more: seq<string>)
    requires forall i :: 0 <= i < |lines| ==> IsGetsLine(lines[i])
    requires forall i :: 0 <= i < |more| ==> IsGetsLine(more[i])
    ensures forall i :: 0 <= i < |lines + more| ==> IsGetsLine((lines + more)[i])
    ensures ParseAll(lines + more) == ParseAll(lines) + ParseAll(more)
  {
    var all, front, back := LineBlocks(lines + more), LineBlocks(lines), LineBlocks(more);
    forall k | 0 <= k < |lines + more|
      ensures all[k] == (front + back)[k]
    {
      if k < |lines| {
        assert (lines + more)[k] == lines[k];
      } else {
        assert (lines + more)[k] == more[k - |lines|];
      }
    }
    assert all == front + back;
    FlattenAppend(LineBlocks(lines), LineBlocks(more));
  }

  /** A name is found exactly when some entry pairs it with the target. */
  lemma {:induction false} LookupMembership(entries: seq<Entry>, target: string)
    ensures |Lookup(entries, target)| <= |entries|
    ensures forall name :: name in Lookup(entries, target) <==> Entry(target, name) in entries
  {
    if entries != [] {
      var init := entries[..|entries| - 1];
      LookupMembership(init, target);
      assert entries == init + [entries[|entries| - 1]];
    }
  }

  lemma {:induction false} LookupAppend(entries: seq<Entry>, more: seq<Entry>, target: string)
    ensures Lookup(entries + more, target) == Lookup(entries, target) + Lookup(more, target)
    decreases |more|
  {
    if more == [] {
      assert entries + more == entries;
    } else {
      var init := more[..|more| - 1];
      assert (entries + more)[..|entries + more| - 1] == entries + init;
      LookupAppend(entries, init, target);
    }
  }

  /**
   * A signature written to the catalog with a name is read back as that
   * entry: the signature as it was computed, the name whole.
   */
  lemma {:induction false} RecordedLine(result: ScanResult, name: Line)
    requires WellShaped(result)
    requires |name| > 0 && !IsSpace(name[0])
    ensures '\n' !in ResultToSignature(result) + " " + name
    ensures ParseLine(ResultToSignature(result) + " " + name) == Some(Entry(ResultToSignature(result), name))
  {
    var sig := ResultToSignature(result);
    SignatureLayout(result);
    var line: Line := sig + " " + name;
    assert forall k :: 0 <= k < 128 ==> IsHexDigit(line[k]) by {
      forall k | 0 <= k < 128
        ensures IsHexDigit(line[k])
      {
        assert line[k] == sig[k];
      }
    }
    assert forall k :: 129 <= k < 257 ==> IsHexDigit(line[k]) by {
      forall k | 129 <= k < 257
        ensures IsHexDigit(line[k])
      {
        assert line[k] == sig[k];
      }
    }
    assert line[128] == ' ' && line[257] == ' ' && line[258] == name[0];
    assert ValidSplit(line, 128, 257, 258);
    SplitRuns(line, 128, 257, 258);
    assert SpaceRunEnd(line, 257) == 258;
    assert line[..257] == sig && line[258..] == name;
  }

  /** Looking up a scan's signature in a catalog made of its recorded line finds its name. */
  lemma {:induction false} RecordedLookup(result: ScanResult, name: Line)
    requires WellShaped(result)
    requires |name| > 0 && !IsSpace(name[0]) && name[|name| - 1] != '\r'
    ensures IsGetsLine(ResultToSignature(result) + " " + name + "\n")
    ensures Lookup(ParseAll([ResultToSignature(result) + " " + name + "\n"]), ResultToSignature(result)) == [name]
  {
    var line := ResultToSignature(result) + " " + name;
    RecordedLine(result, name);
    var raw := line + "\n";
    assert raw[..|raw| - 1] == line;
    assert raw[|raw| - 2] == name[|name| - 1];
    assert raw[|raw| - 2..] != "\r\n";
    assert Chomp(raw) == line;
    assert LineBlocks([raw]) == [LineEntries(raw)];
    FlattenOne(LineEntries(raw));
    assert ParseAll([raw]) == [Entry(ResultToSignature(result), name)];
  }

  const DefaultListFilePath: string := "signatures.dat"

  /** The catalog file and the entries loaded from it. */
  class SignatureList {
    const path: string
    var data: seq<Entry>

    constructor (path: string := DefaultListFilePath)
      ensures this.path == path && data == []
    {
      this.path := path;
      data := [];
    }

    /** `load`, given the file's lines as `gets` returns them. */
    method Load(lines: seq<string>) returns (loaded: seq<Entry>)
      requires forall i :: 0 <= i < |lines| ==> IsGetsLine(lines[i])
      modifies this
      ensures data == ParseAll(lines) && loaded == data
    {
      data := [];
      var n := 0;
      while n < |lines|
        invariant 0 <= n <= |lines|
        invariant data == ParseAll(lines[..n])
      {
        var line := Chomp(lines[n]);
        assert lines[..n + 1][..n] == lines[..n];
        ParseAllSnoc(lines[..n + 1]);
        match ParseLine(line) {
          case Some(e) => data := data + [e];
          case None =>
        }
        n := n + 1;
      }
      assert lines[..n] == lines;
      loaded := data;
    }

    /** `search`: the labels of the entries whose signature is `target`. */
    method Search(target: string) returns (found: seq<string>)
      ensures found == Lookup(data, target)
    {
      found := [];
      var n := 0;
      while n < |data|
        invariant 0 <= n <= |data|
        invariant found == Lookup(data[..n], target)
      {
        assert data[..n + 1][..n] == data[..n];
        if data[n].signature == target {
          found := found + [data[n].name];
        }
        n := n + 1;
      }
      assert data[..n] == data;
    }
  }
}
