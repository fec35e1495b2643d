/** The software RAID scanner: two loops over one shared index. */
module Mdstat {
  import opened Wrappers

  const MAX_ARRAYS: nat := 256

  /** A line of the status file: the start of an array, an empty line, or anything else. */
  datatype Line = Header(name: string, summary: string) | Blank | Detail(text: string)

  /** An array with the lines that describe it. */
  datatype Entry = Entry(name: string, summary: string, details: seq<string>)

  /** The detail lines up to the next array or empty line. */
  function Details(lines: seq<Line>): seq<string> {
    if lines == [] || !lines[0].Detail? then [] else [lines[0].text] + Details(lines[1..])
  }

  /** One entry for every array line. */
  function Entries(lines: seq<Line>): seq<Entry> {
    if lines == [] then []
    else
      (if lines[0].Header? then [Entry(lines[0].name, lines[0].summary, Details(lines[1..]))] else [])
      + Entries(lines[1..])
  }

  function Headers(lines: seq<Line>): seq<Line> {
    if lines == [] then [] else (if lines[0].Header? then [lines[0]] else []) + Headers(lines[1..])
  }

  function First(es: seq<Entry>): (r: seq<Entry>)
    ensures |r| <= MAX_ARRAYS
  {
    if |es| > MAX_ARRAYS then es[..MAX_ARRAYS] else es
  }

  /** Leaving out leading lines that start no array changes nothing. */
  lemma {:induction false} SkipSection(lines: seq<Line>, n: nat)
    requires n <= |lines| && forall k :: 0 <= k < n ==> !lines[k].Header?
    ensures Entries(lines) == Entries(lines[n..])
  {
    if n > 0 {
      SkipSection(lines[1..], n - 1);
      assert lines[1..][n - 1..] == lines[n..];
    } else {
      assert lines[0..] == lines;
    }
  }

  /** One turn of the inner loop. */
  lemma DetailsStep(done: seq<string>, lines: seq<Line>)
    ensures lines == [] || !lines[0].Detail? ==> done + Details(lines) == done
    ensures lines != [] && lines[0].Detail? ==> done + Details(lines) == done + [lines[0].text] + Details(lines[1..])
  {
    if lines != [] && lines[0].Detail? {
      assert done + ([lines[0].text] + Details(lines[1..])) == done + [lines[0].text] + Details(lines[1..]);
    }
  }

  /** The inner loop: collect the details of a section, and leave the shared index at the
      next array line or after the empty line that ends the section. */
  method Section(lines: seq<Line>, start: nat) returns (details: seq<string>, index: nat)
    requires start <= |lines|
    ensures start <= index <= |lines| && details == Details(lines[start..])
    ensures Entries(lines[index..]) == Entries(lines[start..])
  {
    hide Entries, Details;
    details, index := [], start;
    while index < |lines| && lines[index].Detail?
      invariant start <= index <= |lines|
      invariant forall k :: start <= k < index ==> !lines[k].Header?
      invariant Details(lines[start..]) == details + Details(lines[index..])
    {
      assert lines[index..][1..] == lines[index + 1..];
      DetailsStep(details, lines[index..]);
      details := details + [lines[index].text];
      index := index + 1;
    }
    DetailsStep(details, lines[index..]);
    if index < |lines| && lines[index].Blank? {
      index := index + 1;
    }
    SkipSection(lines[start..], index - start);
    assert lines[start..][index - start..] == lines[index..];
  }

  lemma EntriesStart(lines: seq<Line>)
    ensures Entries(lines) == [] + Entries(lines[0..])
  {
    assert lines[0..] == lines;
  }

  /** One turn of the outer loop. */
  lemma EntriesStep(done: seq<Entry>, lines: seq<Line>)
    ensures lines == [] ==> done + Entries(lines) == done
    ensures lines != [] ==>
      done + Entries(lines)
      == (if lines[0].Header? then done + [Entry(lines[0].name, lines[0].summary, Details(lines[1..]))] else done)
         + Entries(lines[1..])
  {
    hide Details;
    if lines == [] {
      assert done + [] == done;
    } else {
      var rest := Entries(lines[1..]);
      if lines[0].Header? {
        var e := Entry(lines[0].name, lines[0].summary, Details(lines[1..]));
        assert Entries(lines) == [e] + rest;
        assert done + ([e] + rest) == done + [e] + rest;
      } else {
        assert Entries(lines) == [] + rest == rest;
      }
    }
  }

  method RaidArrays(lines: seq<Line>) returns (result: seq<Entry>)
    ensures result == First(Entries(lines))
    ensures result <= Entries(lines) && |result| == if |Headers(lines)| < 256 then |Headers(lines)| else 256
  {
    hide Details, Entries;
    result := [];
    EntriesStart(lines);
    var index := 0;
    while index < |lines| && |result| < MAX_ARRAYS
      invariant index <= |lines| && |result| <= MAX_ARRAYS
      invariant Entries(lines) == result + Entries(lines[index..])
      decreases |lines| - index
    {
      var line := lines[index];
      assert lines[index..][1..] == lines[index + 1..];
      EntriesStep(result, lines[index..]);
      if !line.Header? {
        index := index + 1;
      } else {
        var details, next := Section(lines, index + 1);
        result, index := result + [Entry(line.name, line.summary, details)], next;
      }
    }
    EntriesStep(result, lines[index..]);
    OneEntryPerHeader(lines);
  }

  /** The scan returns one entry per array line, in order and named after it, up to 256. */
  lemma {:induction false} OneEntryPerHeader(lines: seq<Line>)
    ensures |Entries(lines)| == |Headers(lines)|
    ensures forall k :: 0 <= k < |Entries(lines)| ==>
              && Headers(lines)[k].Header?
              && Entries(lines)[k].name == Headers(lines)[k].name
              && Entries(lines)[k].summary == Headers(lines)[k].summary
  {
    if lines != [] {
      OneEntryPerHeader(lines[1..]);
    }
  }

  /** The details of an array are the lines after it, none of them an array or empty. */
  lemma {:induction false} DetailsAreContiguous(lines: seq<Line>)
    ensures var n := |Details(lines)|;
            && n <= |lines|
            && (forall k :: 0 <= k < n ==> lines[k] == Detail(Details(lines)[k]))
            && (n < |lines| ==> !lines[n].Detail?)
  {
    if lines != [] && lines[0].Detail? {
      DetailsAreContiguous(lines[1..]);
    }
  }

  /** The array line at `i` has the entry of its rank, with the texts of the `n` lines after
      it, if the next one is an array or empty line or there is none. */
  lemma {:induction false} EntryOfHeader(lines: seq<Line>, i: nat, n: nat)
    requires i + n < |lines| && lines[i].Header?
    requires forall k :: i < k <= i + n ==> lines[k].Detail?
    requires i + n + 1 < |lines| ==> !lines[i + n + 1].Detail?
    ensures var k := |Headers(lines[..i])|;
            && k < |Entries(lines)| && Entries(lines)[k].name == lines[i].name && Entries(lines)[k].summary == lines[i].summary
            && |Entries(lines)[k].details| == n
            && forall j :: 0 <= j < n ==> lines[i + 1 + j].text == Entries(lines)[k].details[j]
  {
    if i == 0 {
      DetailsAreContiguous(lines[1..]);
      var m := |Details(lines[1..])|;
      assert forall k :: 0 <= k < |lines| - 1 ==> lines[1..][k] == lines[k + 1];
      assert m == n;
    } else {
      EntryOfHeader(lines[1..], i - 1, n);
      assert lines[..i][1..] == lines[1..][..i - 1];
    }
  }
}
