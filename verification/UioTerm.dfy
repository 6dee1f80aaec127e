// The terminal filter of usr/uio.c: CRLF normalisation of output and input.

module CrlfFilters {
  const CR: char := '\r'
  const LF: char := '\n'

  // One character through the output filter: what it emits, and the next value of cr_out.
  function Emit(cr: bool, ch: char): string {
    if ch == CR then [CR, LF]
    else if ch == LF then (if cr then [] else [CR, LF])
    else [ch]
  }

  function NextOut(ch: char): bool {
    ch == CR
  }

  // A whole stream through the output filter, character by character.
  function Out(cr: bool, s: string): string {
    if |s| == 0 then [] else Out(cr, s[..|s| - 1]) + Emit(OutState(cr, s[..|s| - 1]), s[|s| - 1])
  }

  function OutState(cr: bool, s: string): bool {
    if |s| == 0 then cr else NextOut(s[|s| - 1])
  }

  // One character through the input filter, and the next value of cr_in.
  function Accept(cr: bool, ch: char): string {
    if ch == CR then [LF] else if ch == LF && cr then [] else [ch]
  }

  function In(cr: bool, s: string): (r: string)
    ensures |r| <= |s|
  {
    if |s| == 0 then [] else In(cr, s[..|s| - 1]) + Accept(InState(cr, s[..|s| - 1]), s[|s| - 1])
  }

  function InState(cr: bool, s: string): bool {
    if |s| == 0 then cr else s[|s| - 1] == CR
  }

  lemma OutJoin(a: string, b: string, c: string)
    ensures a + b + c == a + (b + c)
  {
  }

  // Writing in pieces is writing at once.
  lemma {:induction false} OutSplit(cr: bool, a: string, b: string)
    ensures Out(cr, a + b) == Out(cr, a) + Out(OutState(cr, a), b)
    ensures OutState(cr, a + b) == OutState(OutState(cr, a), b)
  {
    if |b| == 0 {
      assert a + b == a;
    } else {
      var init, ch := b[..|b| - 1], b[|b| - 1];
      OutSplit(cr, a, init);
      assert (a + b)[..|a + b| - 1] == a + init && (a + b)[|a + b| - 1] == ch;
      OutJoin(Out(cr, a), Out(OutState(cr, a), init), Emit(OutState(cr, a + init), ch));
    }
  }

  lemma {:induction false} InSplit(cr: bool, a: string, b: string)
    ensures In(cr, a + b) == In(cr, a) + In(InState(cr, a), b)
    ensures InState(cr, a + b) == InState(InState(cr, a), b)
  {
    if |b| == 0 {
      assert a + b == a;
    } else {
      var init, ch := b[..|b| - 1], b[|b| - 1];
      InSplit(cr, a, init);
      assert (a + b)[..|a + b| - 1] == a + init && (a + b)[|a + b| - 1] == ch;
      OutJoin(In(cr, a), In(InState(cr, a), init), Accept(InState(cr, a + init), ch));
    }
  }

  lemma OutOne(cr: bool, ch: char)
    ensures Out(cr, [ch]) == Emit(cr, ch) && OutState(cr, [ch]) == NextOut(ch)
  {
    assert [ch][..0] == [];
  }

  lemma InOne(cr: bool, ch: char)
    ensures In(cr, [ch]) == Accept(cr, ch) && InState(cr, [ch]) == (ch == CR)
  {
    assert [ch][..0] == [];
  }

  // What the filter emits for one character passes through it unchanged, and through the input filter as one
  // character.
  lemma EmitAgain(cr: bool, ch: char)
    ensures Out(false, Emit(cr, ch)) == Emit(cr, ch) && !OutState(false, Emit(cr, ch))
    ensures In(false, Emit(cr, ch)) == Accept(cr, ch) && !InState(false, Emit(cr, ch))
  {
    if ch == CR || (ch == LF && !cr) {
      assert Emit(cr, ch) == [CR] + [LF];
      OutSplit(false, [CR], [LF]);
      OutOne(false, CR);
      OutOne(true, LF);
      InSplit(false, [CR], [LF]);
      InOne(false, CR);
      InOne(true, LF);
    } else if ch != LF {
      OutOne(false, ch);
      InOne(false, ch);
    }
  }

  // Output that is normal already is left alone.
  lemma {:induction false} OutIdempotent(s: string)
    ensures Out(false, Out(false, s)) == Out(false, s) && !OutState(false, Out(false, s))
  {
    if |s| > 0 {
      var init := s[..|s| - 1];
      OutIdempotent(init);
      OutSplit(false, Out(false, init), Emit(OutState(false, init), s[|s| - 1]));
      EmitAgain(OutState(false, init), s[|s| - 1]);
    }
  }

  // What the input filter gives holds no carriage return ...
  lemma {:induction false} InHasNoCr(cr: bool, s: string)
    ensures CR !in In(cr, s)
  {
    if |s| > 0 { InHasNoCr(cr, s[..|s| - 1]); }
  }

  // ... and the input filter leaves such text alone,
  lemma {:induction false} InKeepsPlain(s: string)
    requires CR !in s
    ensures In(false, s) == s && !InState(false, s)
  {
    if |s| > 0 {
      var init := s[..|s| - 1];
      assert s == init + [s[|s| - 1]] && s[|s| - 1] in s;
      InKeepsPlain(init);
    }
  }

  // so reading through two filters is reading through one.
  lemma InIdempotent(cr: bool, s: string)
    ensures In(false, In(cr, s)) == In(cr, s) && !InState(false, In(cr, s))
  {
    InHasNoCr(cr, s);
    InKeepsPlain(In(cr, s));
  }

  // Reading back what was written gives what reading the original would have given.
  lemma {:induction false} InOfOut(s: string)
    ensures In(false, Out(false, s)) == In(false, s) && !InState(false, Out(false, s))
    ensures OutState(false, s) == InState(false, s)
  {
    if |s| > 0 {
      var init := s[..|s| - 1];
      InOfOut(init);
      InSplit(false, Out(false, init), Emit(OutState(false, init), s[|s| - 1]));
      EmitAgain(OutState(false, init), s[|s| - 1]);
    }
  }
}

module UioTerm {
  import opened CrlfFilters

  // The raw side: a write takes everything or fails; a read gives at least one character or fails.
  class RawUio {
    var output: string
    var input: string
    var faults: seq<bool>     // which of the coming calls fail
    var chunks: seq<nat>      // how much the coming reads would give

    method Write(bytes: string) returns (cnt: int)
      modifies this`output, this`faults
      ensures if cnt < 0 then output == old(output) else cnt == |bytes| && output == old(output) + bytes
      ensures old(faults) == [] ==> faults == [] && cnt >= 0
    {
      if |faults| > 0 {
        var fault := faults[0];
        faults := faults[1..];
        if fault { return -1; }
      }
      output := output + bytes;
      cnt := |bytes|;
    }

    method Read(buf: array<char>, len: nat) returns (cnt: int)
      requires 0 < len <= buf.Length
      modifies this`input, this`faults, this`chunks, buf
      ensures cnt < 0 ==> input == old(input) && buf[..] == old(buf[..])
      ensures cnt >= 0 ==> 0 < cnt <= len && cnt <= |old(input)| && input == old(input)[cnt..]
      ensures cnt >= 0 ==> buf[..cnt] == old(input)[..cnt]
      ensures old(faults) == [] ==> faults == [] && (cnt >= 0 <==> old(input) != [])
    {
      if |input| == 0 { return -1; }
      if |faults| > 0 {
        var fault := faults[0];
        faults := faults[1..];
        if fault { return -1; }
      }
      var n := if |input| < len then |input| else len;
      if |chunks| > 0 {
        if 0 < chunks[0] < n { n := chunks[0]; }
        chunks := chunks[1..];
      }
      forall i | 0 <= i < n { buf[i] := input[i]; }
      input := input[n..];
      cnt := n;
    }
  }

  ghost function Skip(cr: bool, buf: string, rp: nat): nat
    requires rp <= |buf|
  {
    if cr && rp > 0 && buf[0] == LF then 1 else 0
  }

  class Term {
    const raw: RawUio
    var crOut: bool
    var crIn: bool

    constructor (r: RawUio)
      ensures raw == r && !crOut && !crIn
    {
      raw, crOut, crIn := r, false, false;
    }

    // How many characters of buf a write skips because they finish a line ending already written.
    ghost function Skipped(cr: bool, buf: string): nat {
      Skip(cr, buf, |buf|)
    }

    // Writes out what the buffer holds from wp to end, and one character that is not in it.
    method Drain(buf: string, wp: nat, end: nat, extra: char) returns (rc: int)
      requires wp <= end <= |buf|
      modifies raw`output, raw`faults
      ensures rc >= 0 ==> rc == end - wp && raw.output == old(raw.output) + buf[wp..end] + [extra]
      ensures rc < 0 ==> raw.output == old(raw.output) || raw.output == old(raw.output) + buf[wp..end]
      ensures old(raw.output) <= raw.output
      ensures old(raw.faults) == [] ==> raw.faults == [] && rc >= 0
    {
      rc := 0;
      if wp != end {
        rc := raw.Write(buf[wp..end]);
        if rc < 0 { return; }
      }
      var cnt := raw.Write([extra]);
      if cnt < 0 { return cnt; }
    }

    // a carriage return at at: part of CRLF in the buffer, or one that needs a line feed
    method CarriageReturn(buf: string, wp: nat, at: nat, ghost due: string) returns (cnt: int, rp: nat)
      requires wp <= at < |buf| && buf[at] == CR && raw.output + buf[wp..at] == due
      modifies this`crOut, raw`output, raw`faults
      ensures rp == if at + 1 < |buf| && buf[at + 1] == LF then at + 2 else at + 1
      ensures var easy := at + 1 < |buf| && buf[at + 1] == LF;
        cnt >= 0 ==> crOut == !easy && (if easy then cnt == 0 && rp == at + 2 else cnt == at + 1 - wp && rp == at + 1)
      ensures cnt >= 0 ==> raw.output + buf[wp + cnt..rp] == due + [CR, LF]
      ensures old(raw.output) <= raw.output && (cnt < 0 ==> raw.output <= due + [CR])
      ensures old(raw.faults) == [] ==> raw.faults == [] && cnt >= 0
    {
      Longer(raw.output, buf, wp, at, due);
      rp := at + 1;
      if rp < |buf| && buf[rp] == LF {
        Longer(raw.output, buf, wp, rp, due + [CR]);
        crOut := false;
        cnt, rp := 0, rp + 1;
      } else {
        cnt := Drain(buf, wp, rp, LF);
        crOut := true;
      }
    }

    // a line feed at at that follows no carriage return
    method LineFeed(buf: string, wp: nat, at: nat, ghost due: string) returns (cnt: int)
      requires wp <= at < |buf| && buf[at] == LF && raw.output + buf[wp..at] == due
      modifies this`crOut, raw`output, raw`faults
      ensures cnt >= 0 ==> !crOut && cnt == at - wp && raw.output + buf[wp + cnt..at + 1] == due + [CR, LF]
      ensures old(raw.output) <= raw.output && (cnt < 0 ==> raw.output <= due)
      ensures old(raw.faults) == [] ==> raw.faults == [] && cnt >= 0
    {
      cnt := Drain(buf, wp, at, CR);
      crOut := false;
    }

    // one turn of the write loop, at the character rp
    method Turn(buf: string, wp: nat, rp: nat, ghost due: string, ghost due1: string)
        returns (cnt: int, skip: nat, rp1: nat)
      requires wp <= rp < |buf| && raw.output + buf[wp..rp] == due && due1 == due + Emit(crOut, buf[rp])
      requires crOut ==> wp == rp && (rp > 0 ==> buf[rp] != LF)
      modifies this`crOut, raw`output, raw`faults
      ensures rp1 == After(buf, rp) && skip == if old(crOut) && buf[rp] == LF then 1 else 0
      ensures cnt >= 0 ==> Left(buf, wp + cnt + skip, rp1, raw.output, due1, crOut)
      ensures old(raw.output) <= raw.output && (cnt < 0 ==> raw.output <= due1)
      ensures old(raw.faults) == [] ==> raw.faults == [] && cnt >= 0
    {
      cnt, skip, rp1 := 0, 0, rp + 1;
      if buf[rp] == CR {
        cnt, rp1 := CarriageReturn(buf, wp, rp, due);
      } else if buf[rp] == LF {
        if crOut {
          crOut := false;
          skip := 1;
          assert due + [] == due;
        } else {
          cnt := LineFeed(buf, wp, rp, due);
        }
      } else {
        Longer(raw.output, buf, wp, rp, due);
        crOut := false;
      }
    }

    // a turn with the counts of the loop kept up to date
    method Round(buf: string, acc: nat, wp: nat, rp: nat, ghost out0: string, ghost cr: bool, ghost due: string)
        returns (acc1: int, wp1: nat, rp1: nat, ghost due1: string)
      requires rp < |buf| && Scanned(out0, cr, buf, acc, wp, rp, raw.output, due, crOut)
      modifies this`crOut, raw`output, raw`faults
      ensures acc1 >= 0 ==> Scanned(out0, cr, buf, acc1, wp1, rp1, raw.output, due1, crOut) && rp < rp1
      ensures acc1 < 0 ==> Within(out0, cr, buf, raw.output)
      ensures old(raw.output) <= raw.output
      ensures old(raw.faults) == [] ==> raw.faults == [] && acc1 >= 0
    {
      due1 := DueAfter(out0, cr, buf, rp, due, crOut);
      var cnt, skip;
      ghost var state := crOut;
      cnt, skip, rp1 := Turn(buf, wp, rp, due, due1);
      if cnt < 0 {
        DueWithin(out0, cr, buf, rp1, due1, raw.output);
        return cnt, wp, rp1, due1;
      }
      ScanStep(out0, cr, buf, acc, wp, rp, due, state, cnt, skip, raw.output, due1, crOut);
      acc1, wp1 := acc + cnt, wp + cnt + skip;
    }

    // the write loop: everything but what it leaves in the buffer from wp on has gone out
    method Scan(buf: string) returns (acc: int, wp: nat)
      modifies this`crOut, raw`output, raw`faults
      ensures wp <= |buf| && (acc >= 0 ==> acc == wp - Skipped(old(crOut), buf))
      ensures acc >= 0 ==> Due(old(raw.output), old(crOut), buf, |buf|, raw.output + buf[wp..], crOut)
      ensures old(raw.output) <= raw.output
      ensures acc < 0 ==> Within(old(raw.output), old(crOut), buf, raw.output)
      ensures old(raw.faults) == [] ==> raw.faults == [] && acc >= 0
    {
      ghost var due := raw.output;
      ScanStart(crOut, buf, due);
      var rp := 0;
      acc, wp := 0, 0;
      while rp < |buf|
        invariant Scanned(old(raw.output), old(crOut), buf, acc, wp, rp, raw.output, due, crOut)
        invariant old(raw.output) <= raw.output
        invariant old(raw.faults) == [] ==> raw.faults == []
      {
        acc, wp, rp, due := Round(buf, acc, wp, rp, old(raw.output), old(crOut), due);
        if acc < 0 { return acc, 0; }
      }
      assert buf[wp..rp] == buf[wp..];
    }

    // uioterm_write. If no raw write fails, exactly the filtered bytes go out, whatever is looked ahead or put
    // off; if one fails, what went out is a prefix of them.
    method Write(buf: string) returns (rc: int)
      modifies this`crOut, raw`output, raw`faults
      ensures old(raw.faults) == [] ==> raw.faults == [] && rc >= 0
      ensures rc >= 0 ==> raw.output == old(raw.output) + Out(old(crOut), buf)
      ensures rc >= 0 ==> crOut == OutState(old(crOut), buf) && rc == |buf| - Skipped(old(crOut), buf)
      ensures rc < 0 ==> old(raw.output) <= raw.output && Within(old(raw.output), old(crOut), buf, raw.output)
    {
      var acc, wp := Scan(buf);
      if acc < 0 { return acc; }
      DueAll(old(raw.output), old(crOut), buf, raw.output + buf[wp..], crOut);
      if |buf| != wp {
        var cnt := raw.Write(buf[wp..]);
        if cnt < 0 {
          assert raw.output <= raw.output + buf[wp..];
          return cnt;
        }
        acc := acc + cnt;
      } else {
        assert raw.output + buf[wp..] == raw.output;
      }
      rc := acc;
    }

    // The scan of uioterm_read over cnt characters, in place.
    method Filter(buf: array<char>, cnt: nat) returns (wp: nat)
      requires cnt <= buf.Length
      modifies this`crIn, buf
      ensures wp <= cnt && buf[..wp] == In(old(crIn), old(buf[..cnt]))
      ensures crIn == InState(old(crIn), old(buf[..cnt]))
    {
      var rp := 0;
      wp := 0;
      ghost var c: string := buf[..cnt];
      ghost var out: string := [];
      assert c[..0] == [];
      while rp < cnt
        invariant wp <= rp <= cnt && |out| == wp
        invariant Taken(old(crIn), c, rp, out, crIn)
        invariant forall i {:trigger buf[i]} :: rp <= i < cnt ==> buf[i] == c[i]
        invariant forall i {:trigger buf[i]} :: 0 <= i < wp ==> buf[i] == out[i]
      {
        var ch := buf[rp];
        TakeStep(old(crIn), c, rp, out, crIn);
        rp := rp + 1;
        if crIn && ch == LF {
          crIn := false;
        } else {
          buf[wp] := if ch == CR then LF else ch;
          crIn := ch == CR;
          wp := wp + 1;
          out := out + [if ch == CR then LF else ch];
        }
      }
      assert c[..cnt] == c;
      assert buf[..wp] == out;
    }

    // uioterm_read: the filtered form of the raw characters it took in one or two raw reads. If no raw read
    // fails it returns something exactly if the raw input filters to something; if one fails nothing is lost.
    method Read(buf: array<char>, len: nat) returns (rc: int, ghost taken: string, ghost passes: nat)
      requires 0 < len <= buf.Length
      modifies this`crIn, raw`input, raw`faults, raw`chunks, buf
      ensures passes <= 2
      ensures rc < 0 || 0 < rc <= len
      ensures old(raw.faults) == [] ==> (rc > 0 <==> In(old(crIn), old(raw.input)) != [])
      ensures old(raw.input) == taken + raw.input && crIn == InState(old(crIn), taken)
      ensures In(old(crIn), taken) == if rc > 0 then buf[..rc] else []
    {
      taken, passes := [], 0;
      var wp := 0;
      while wp == 0
        invariant passes <= 2 && 0 <= wp <= len && wp <= buf.Length
        invariant old(raw.faults) == [] ==> raw.faults == []
        invariant Consumed(old(raw.input), old(crIn), taken, raw.input, crIn, buf[..wp])
        invariant passes == 1 && wp == 0 ==> !crIn
        invariant passes == 2 ==> wp > 0
        decreases 2 - passes
      {
        ghost var piece: string;
        ghost var input, cr := raw.input, crIn;
        var cnt;
        ConsumedAll(old(raw.input), old(crIn), taken, raw.input, crIn);
        cnt, wp, piece := Pass(buf, len);
        if cnt < 0 { return cnt, taken, passes + 1; }
        ConsumedMore(old(raw.input), old(crIn), taken, input, cr, piece, raw.input);
        taken, passes := taken + piece, passes + 1;
      }
      ConsumedAll(old(raw.input), old(crIn), taken, raw.input, crIn);
      rc := wp;
    }

    // one raw read, filtered
    method Pass(buf: array<char>, len: nat) returns (cnt: int, wp: nat, ghost piece: string)
      requires 0 < len <= buf.Length
      modifies this`crIn, raw`input, raw`faults, raw`chunks, buf
      ensures wp <= len
      ensures cnt >= 0 ==> old(raw.input) == piece + raw.input && crIn == InState(old(crIn), piece)
      ensures cnt >= 0 ==> buf[..wp] == In(old(crIn), piece) && (wp == 0 ==> old(crIn) && !crIn)
      ensures cnt < 0 ==> raw.input == old(raw.input) && crIn == old(crIn)
      ensures old(raw.faults) == [] ==> raw.faults == [] && (cnt >= 0 <==> old(raw.input) != [])
    {
      ghost var input := raw.input;
      cnt := raw.Read(buf, len);
      wp, piece := 0, [];
      if cnt < 0 { return; }
      piece := buf[..cnt];
      SomethingComes(crIn, piece);
      wp := Filter(buf, cnt);
      assert input == piece + raw.input;
    }
  }

  // Of the raw input the part taken has gone through the filter and given got.
  ghost predicate Consumed(input0: string, cr: bool, taken: string, input: string, state: bool, got: string) {
    input0 == taken + input && state == InState(cr, taken) && got == In(cr, taken)
  }

  lemma ConsumedMore(input0: string, cr: bool, taken: string, input: string, state: bool, piece: string, rest: string)
    requires Consumed(input0, cr, taken, input, state, []) && input == piece + rest
    ensures Consumed(input0, cr, taken + piece, rest, InState(state, piece), In(state, piece))
  {
    InSplit(cr, taken, piece);
    JoinNothing(In(cr, taken), In(state, piece));
    OutJoin(taken, piece, rest);
  }

  lemma JoinNothing(a: string, b: string)
    requires a == []
    ensures a + b == b
  {
  }

  // The whole input gives something if the part taken does, or if nothing is left it gives just that.
  lemma ConsumedAll(input0: string, cr: bool, taken: string, input: string, state: bool)
    requires input0 == taken + input && state == InState(cr, taken)
    ensures In(cr, taken) != [] ==> In(cr, input0) != []
    ensures input == [] ==> In(cr, input0) == In(cr, taken)
  {
    InSplit(cr, taken, input);
  }

  // The input filter after rp characters: what it has put out, and its state.
  ghost predicate Taken(cr: bool, s: string, rp: nat, out: string, state: bool) {
    rp <= |s| && out == In(cr, s[..rp]) && state == InState(cr, s[..rp])
  }

  lemma TakeStep(cr: bool, s: string, rp: nat, out: string, state: bool)
    requires rp < |s| && Taken(cr, s, rp, out, state)
    ensures if state && s[rp] == LF then Taken(cr, s, rp + 1, out, false)
            else Taken(cr, s, rp + 1, out + [if s[rp] == CR then LF else s[rp]], s[rp] == CR)
  {
    assert s[..rp + 1][..rp] == s[..rp];
    assert out + [] == out;
  }

  // Only a line feed that finishes a line ending gives nothing, and the next character does.
  lemma SomethingComes(cr: bool, s: string)
    requires |s| > 0
    ensures In(cr, s) == [] ==> cr && !InState(cr, s)
  {
    if |s| > 1 {
      SomethingComes(cr, s[..|s| - 1]);
    }
  }

  // due is all that must go out for the first rp characters.
  ghost predicate Due(out0: string, cr: bool, buf: string, rp: nat, due: string, state: bool) {
    rp <= |buf| && due == out0 + Out(cr, buf[..rp]) && state == OutState(cr, buf[..rp])
  }

  lemma OutStart(cr: bool, buf: string, out0: string)
    ensures Due(out0, cr, buf, 0, out0, cr)
  {
    assert buf[..0] == [];
  }

  lemma Step(out0: string, cr: bool, buf: string, rp: nat, due: string, state: bool)
    requires rp < |buf| && Due(out0, cr, buf, rp, due, state)
    ensures Due(out0, cr, buf, rp + 1, due + Emit(state, buf[rp]), buf[rp] == CR)
  {
    assert buf[..rp + 1][..rp] == buf[..rp];
    assert out0 + (Out(cr, buf[..rp]) + Emit(state, buf[rp])) == due + Emit(state, buf[rp]);
  }

  // A line feed right after a carriage return adds nothing.
  lemma Step2(out0: string, cr: bool, buf: string, rp: nat, due: string)
    requires rp < |buf| && Due(out0, cr, buf, rp + 1, due, true)
    ensures rp + 1 < |buf| && buf[rp + 1] == LF ==> Due(out0, cr, buf, rp + 2, due, false)
  {
    if rp + 1 < |buf| && buf[rp + 1] == LF {
      Step(out0, cr, buf, rp + 1, due, true);
      assert due + [] == due;
    }
  }

  // Where the turn at rp leaves off: a line feed right after a carriage return is taken along.
  function After(buf: string, rp: nat): (rp1: nat)
    requires rp < |buf|
    ensures rp < rp1 <= |buf|
  {
    if buf[rp] == CR && rp + 1 < |buf| && buf[rp + 1] == LF then rp + 2 else rp + 1
  }

  lemma DueAfter(out0: string, cr: bool, buf: string, rp: nat, due: string, state: bool) returns (due1: string)
    requires rp < |buf| && Due(out0, cr, buf, rp, due, state)
    ensures due1 == due + Emit(state, buf[rp])
    ensures Due(out0, cr, buf, After(buf, rp), due1, buf[After(buf, rp) - 1] == CR)
  {
    due1 := due + Emit(state, buf[rp]);
    Step(out0, cr, buf, rp, due, state);
    if buf[rp] == CR { Step2(out0, cr, buf, rp, due1); }
  }

  lemma DueAll(out0: string, cr: bool, buf: string, due: string, state: bool)
    requires Due(out0, cr, buf, |buf|, due, state)
    ensures due == out0 + Out(cr, buf) && state == OutState(cr, buf)
  {
    assert buf[..|buf|] == buf;
  }

  // Nothing but a first part of what must go out for the whole buffer has gone out.
  ghost predicate Within(out0: string, cr: bool, buf: string, out: string) {
    out <= out0 + Out(cr, buf)
  }

  lemma DueWithin(out0: string, cr: bool, buf: string, rp: nat, due: string, out: string)
    requires rp <= |buf| && due == out0 + Out(cr, buf[..rp]) && out <= due
    ensures Within(out0, cr, buf, out)
  {
    OutPrefix(cr, buf[..rp], buf[rp..]);
    assert buf[..rp] + buf[rp..] == buf;
    Prefixes(out, out0, Out(cr, buf[..rp]), Out(cr, buf));
  }

  lemma OutPrefix(cr: bool, a: string, b: string)
    ensures Out(cr, a) <= Out(cr, a + b)
  {
    OutSplit(cr, a, b);
  }

  lemma Prefixes(out: string, out0: string, x: string, y: string)
    requires out <= out0 + x && x <= y
    ensures out <= out0 + y
  {
    assert out0 + y == out0 + x + y[|x|..];
  }

  // After the turn that ended at rp, out and the rest of the buffer from wp on add up to due; after a carriage
  // return nothing is left over, and no line feed follows.
  ghost predicate Left(buf: string, wp: nat, rp: nat, out: string, due: string, state: bool) {
    && wp <= rp <= |buf| && out + buf[wp..rp] == due
    && (rp > 0 ==> state == (buf[rp - 1] == CR))
    && (state ==> wp == rp)
  }

  // The state of the write loop.
  ghost predicate Scanned(out0: string, cr: bool, buf: string, acc: int, wp: nat, rp: nat,
                          out: string, due: string, state: bool)
  {
    && Due(out0, cr, buf, rp, due, state) && Left(buf, wp, rp, out, due, state)
    && acc == wp - Skip(cr, buf, rp) && acc >= 0
    && (state && 0 < rp < |buf| ==> buf[rp] != LF)
  }

  lemma ScanStart(cr: bool, buf: string, out0: string)
    ensures Scanned(out0, cr, buf, 0, 0, 0, out0, out0, cr)
  {
    OutStart(cr, buf, out0);
    assert buf[0..0] == [] && out0 + [] == out0;
  }

  lemma ScanStep(out0: string, cr: bool, buf: string, acc: int, wp: nat, rp: nat, due: string, state: bool,
                 cnt: nat, skip: nat, out1: string, due1: string, state1: bool)
    requires rp < |buf| && Due(out0, cr, buf, rp, due, state) && acc == wp - Skip(cr, buf, rp) && acc >= 0
    requires state && 0 < rp ==> buf[rp] != LF
    requires skip == if state && buf[rp] == LF then 1 else 0
    requires Left(buf, wp + cnt + skip, After(buf, rp), out1, due1, state1)
    requires Due(out0, cr, buf, After(buf, rp), due1, buf[After(buf, rp) - 1] == CR)
    ensures Scanned(out0, cr, buf, acc + cnt, wp + cnt + skip, After(buf, rp), out1, due1, state1)
  {
    assert rp == 0 ==> buf[..rp] == [];
  }

  lemma Longer(out: string, buf: string, wp: nat, rp: nat, due: string)
    requires wp <= rp < |buf| && out + buf[wp..rp] == due
    ensures out + buf[wp..rp + 1] == due + [buf[rp]]
  {
    assert buf[wp..rp + 1] == buf[wp..rp] + [buf[rp]];
  }
}
