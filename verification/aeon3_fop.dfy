/** The bracket scanner `scan_file` (src/pywaeon3/aeon3_fop.py).

    An Aeon 3 project file is binary; its JSON part is the first balanced
    run of curly brackets. The scanner walks the bytes with a depth counter:
    bytes before the first '{' are skipped, the run is collected until the
    '}' that brings the depth back to zero, and a run that never closes is
    reported as corrupted data. Reading the file and decoding UTF-8 are
    outside the model: the file arrives as a `FileContent` and the decoder
    as a parameter. */
module Aeon3Fop {
  import opened Wrappers

  newtype byte = x: int | 0 <= x < 256

  const Open: byte := 123   // '{'
  const Close: byte := 125  // '}'

  /** What opening and reading the file gave. */
  datatype FileContent = Missing | Unreadable | Content(bytes: seq<byte>)

  /** Number of occurrences of `b` in `s`. */
  function Count(s: seq<byte>, b: byte): nat {
    if |s| == 0 then 0
    else Count(s[..|s| - 1], b) + (if s[|s| - 1] == b then 1 else 0)
  }

  /** Bracket depth after reading `s`: opened minus closed. */
  function Depth(s: seq<byte>): int {
    Count(s, Open) - Count(s, Close)
  }

  lemma DepthAppend(s: seq<byte>, c: byte)
    ensures Depth(s + [c]) == Depth(s) + (if c == Open then 1 else if c == Close then -1 else 0)
  {
    assert (s + [c])[..|s|] == s;
  }

  /** A balanced run: it opens, its depth stays positive until its last byte, and ends at depth zero. */
  predicate BalancedRun(part: seq<byte>) {
    |part| > 0 && part[0] == Open && Depth(part) == 0 &&
    forall j | 1 <= j < |part| :: Depth(part[..j]) > 0
  }

  /** Index of the first '{'. */
  function FirstOpen(data: seq<byte>): (i: nat)
    requires Open in data
    ensures i < |data| && data[i] == Open && Open !in data[..i]
  {
    if data[0] == Open then 0 else 1 + FirstOpen(data[1..])
  }

  /** Length of the shortest prefix of `run` (of length at least `k`) whose depth is zero. */
  function CloseFrom(run: seq<byte>, k: nat): (r: Option<nat>)
    requires 1 <= k
    ensures r.Some? ==> k <= r.value <= |run| && Depth(run[..r.value]) == 0
    ensures r.Some? ==> forall j | k <= j < r.value :: Depth(run[..j]) != 0
    ensures r.None? ==> forall j | k <= j <= |run| :: Depth(run[..j]) != 0
    decreases |run| + 1 - k
  {
    if k > |run| then None
    else if Depth(run[..k]) == 0 then Some(k)
    else CloseFrom(run, k + 1)
  }

  /** The JSON part as the scanner defines it, stated over the first '{' and the
      shortest closing prefix after it: empty if there is no '{' at all. */
  function JsonPart(data: seq<byte>): Result<seq<byte>> {
    if Open !in data then Ok([])
    else
      var run := data[FirstOpen(data)..];
      match CloseFrom(run, 1)
      case None => Err(CorruptedData)
      case Some(n) => Ok(run[..n])
  }

  /** Every non-empty prefix of `out` is still open. */
  predicate OpenRun(out: seq<byte>) {
    forall j | 1 <= j <= |out| :: Depth(out[..j]) > 0
  }

  lemma ExtendRun(out: seq<byte>, c: byte)
    requires OpenRun(out) && Depth(out + [c]) > 0
    ensures OpenRun(out + [c])
  {
    var o := out + [c];
    forall j | 1 <= j <= |o| ensures Depth(o[..j]) > 0 {
      if j <= |out| {
        assert o[..j] == out[..j];
      } else {
        assert o[..j] == o;
      }
    }
  }

  lemma CloseRun(out: seq<byte>, c: byte)
    requires OpenRun(out)
    ensures forall j | 1 <= j < |out + [c]| :: Depth((out + [c])[..j]) > 0
  {
    var o := out + [c];
    forall j | 1 <= j < |o| ensures Depth(o[..j]) > 0 {
      assert o[..j] == out[..j];
    }
  }

  /** The scanning loop of `scan_file`, byte by byte with a depth counter. */
  method ScanJson(data: seq<byte>) returns (r: Result<seq<byte>>)
    ensures r == JsonPart(data)
  {
    var out: seq<byte> := [];
    var level := 0;
    var idx := 0;
    ghost var start := 0;
    while idx < |data|
      invariant 0 <= idx <= |data| && level >= 0
      invariant level == 0 ==> out == [] && Open !in data[..idx]
      invariant level > 0 ==>
        Open in data && start == FirstOpen(data) && start < idx &&
        out == data[start..idx] && level == Depth(out) && OpenRun(out)
    {
      var c := data[idx];
      if c == Open {
        if level == 0 {
          FirstOpenAt(data, idx);
          start := idx;
        }
        level := level + 1;
      }
      if level > 0 {
        DepthAppend(out, c);
        if c == Close && level == 1 {
          CloseRun(out, c);
          out := out + [c];
          assert out == data[start..idx + 1];
          ClosesAt(data[start..], out);
          assert data[start..][..|out|] == out;
          return Ok(out);
        }
        ExtendRun(out, c);
        out := out + [c];
        if c == Close {
          level := level - 1;
        }
      }
      assert data[..idx + 1] == data[..idx] + [c];
      idx := idx + 1;
    }
    assert data[..idx] == data;
    if level == 0 {
      return Ok([]);
    }
    NeverCloses(data[start..]);
    return Err(CorruptedData);
  }

  /** A run whose every prefix is open has no closing prefix. */
  lemma NeverCloses(run: seq<byte>)
    requires OpenRun(run)
    ensures CloseFrom(run, 1).None?
  {
  }

  /** A '{' with none before it is the first one. */
  lemma FirstOpenAt(data: seq<byte>, i: nat)
    requires i < |data| && data[i] == Open && Open !in data[..i]
    ensures Open in data && FirstOpen(data) == i
  {
  }

  /** A prefix of `run` at depth zero, with positive depth before, is what `CloseFrom` finds. */
  lemma ClosesAt(run: seq<byte>, part: seq<byte>)
    requires |part| >= 1 && part <= run && Depth(part) == 0
    requires forall j | 1 <= j < |part| :: Depth(part[..j]) > 0
    ensures CloseFrom(run, 1) == Some(|part|)
  {
    assert run[..|part|] == part;
    forall j | 1 <= j < |part| ensures run[..j] == part[..j] { }
  }

  /** The JSON part is empty exactly when there is no '{'; otherwise it is the
      balanced run that starts at the first '{', which ends with '}' and holds
      as many '{' as '}'; the scan fails exactly when that run never closes. */
  lemma JsonPartShape(data: seq<byte>)
    ensures JsonPart(data) == Ok([]) <==> Open !in data
    ensures JsonPart(data).Err? <==> Open in data && OpenRun(data[FirstOpen(data)..])
    ensures JsonPart(data).Err? ==> JsonPart(data).error == CorruptedData
    ensures JsonPart(data).Ok? && JsonPart(data).value != [] ==>
      var part := JsonPart(data).value;
      part <= data[FirstOpen(data)..] && BalancedRun(part) &&
      part[|part| - 1] == Close && Count(part, Open) == Count(part, Close)
  {
    if Open in data {
      var run := data[FirstOpen(data)..];
      match CloseFrom(run, 1)
      case None =>
        forall j | 1 <= j <= |run| ensures Depth(run[..j]) > 0 {
          PositiveBeforeZero(run, j);
        }
      case Some(n) =>
        var part := run[..n];
        assert part != [];
        forall j | 1 <= j < n ensures Depth(part[..j]) > 0 {
          assert part[..j] == run[..j];
          PositiveBeforeZero(run, j);
        }
        assert part[..1] == [Open];
        assert Depth([Open]) == 1 by {
          DepthAppend([], Open);
          assert [] + [Open] == [Open];
        }
        assert part == part[..n - 1] + [part[n - 1]];
        DepthAppend(part[..n - 1], part[n - 1]);
    }
  }

  /** Depth starts at 1 on the first '{' and moves by one per byte, so before it first reaches zero it is positive. */
  lemma {:induction false} PositiveBeforeZero(run: seq<byte>, j: nat)
    requires |run| > 0 && run[0] == Open && 1 <= j <= |run|
    requires forall k | 1 <= k <= j :: Depth(run[..k]) != 0
    ensures Depth(run[..j]) > 0
    decreases j
  {
    if j == 1 {
      assert run[..1] == [] + [Open];
      DepthAppend([], Open);
    } else {
      PositiveBeforeZero(run, j - 1);
      assert run[..j] == run[..j - 1] + [run[j - 1]];
      DepthAppend(run[..j - 1], run[j - 1]);
    }
  }

  /** Bytes before the first '{', stray '}' among them, do not matter. */
  lemma JsonPartSkipsLeading(prefix: seq<byte>, data: seq<byte>)
    requires Open !in prefix
    ensures JsonPart(prefix + data) == JsonPart(data)
  {
    var all := prefix + data;
    if Open in data {
      var i := FirstOpen(data);
      assert all[|prefix| + i] == Open;
      assert all[..|prefix| + i] == prefix + data[..i];
      FirstOpenAt(all, |prefix| + i);
      assert all[|prefix| + i..] == data[i..];
    } else {
      assert Open !in all;
    }
  }

  /** Scanning stops at the closing '}': whatever follows is never looked at. */
  lemma JsonPartStops(data: seq<byte>, more: seq<byte>)
    requires JsonPart(data).Ok? && JsonPart(data).value != []
    ensures JsonPart(data + more) == JsonPart(data)
  {
    var all := data + more;
    var i := FirstOpen(data);
    assert all[..i] == data[..i];
    FirstOpenAt(all, i);
    var run := data[i..];
    var n := CloseFrom(run, 1).value;
    var part := run[..n];
    assert all[i..] == run + more;
    assert (run + more)[..n] == part;
    JsonPartShape(data);
    ClosesAt(run + more, part);
  }

  /** A '{' that no '}' follows leaves the data corrupted, as in the original's corrupted-file test. */
  lemma UnclosedIsCorrupted(data: seq<byte>)
    requires Open in data && Close !in data
    ensures JsonPart(data) == Err(CorruptedData)
  {
    var run := data[FirstOpen(data)..];
    forall j | 1 <= j <= |run| ensures Depth(run[..j]) > 0 {
      NoCloseDepth(run[..j]);
      assert run[..j][0] == Open;
    }
  }

  /** Without a '}' the depth is the number of '{'. */
  lemma {:induction false} NoCloseDepth(s: seq<byte>)
    requires Close !in s
    ensures Depth(s) == Count(s, Open)
    ensures |s| > 0 && s[0] == Open ==> Depth(s) > 0
    decreases |s|
  {
    if |s| > 0 {
      var init := s[..|s| - 1];
      assert s == init + [s[|s| - 1]];
      NoCloseDepth(init);
      DepthAppend(init, s[|s| - 1]);
      if |init| > 0 {
        assert init[0] == s[0];
      }
    }
  }

  /** `scan_file`: a missing or unreadable file, a corrupted JSON part and a
      failing decoder are errors; otherwise the decoded JSON part. */
  function ScanFile(file: FileContent, decode: seq<byte> -> Option<string>): (r: Result<string>)
    ensures file.Missing? ==> r == Err(NotFound)
    ensures file.Unreadable? ==> r == Err(CannotRead)
    ensures file.Content? ==>
      (r == Err(CorruptedData) <==> JsonPart(file.bytes).Err?) &&
      (r.Ok? <==> JsonPart(file.bytes).Ok? && decode(JsonPart(file.bytes).value).Some?)
    ensures r.Ok? ==> file.Content? && r.value == decode(JsonPart(file.bytes).value).value
  {
    match file
    case Missing => Err(NotFound)
    case Unreadable => Err(CannotRead)
    case Content(bytes) =>
      match JsonPart(bytes)
      case Err(e) => Err(e)
      case Ok(part) =>
        match decode(part)
        case None => Err(CannotDecode)
        case Some(text) => Ok(text)
  }
}
