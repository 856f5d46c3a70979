// kernel/coreutils/cat.c: the block-buffered cat() loop and the line counter.
module Cat {
  import opened CatSpec

  // ---- The line counter ----

  ghost predicate Digits(ds: seq<Byte>) { forall i | 0 <= i < |ds| :: 48 <= ds[i] <= 57 }

  // Adding one to a decimal numeral, from the last digit on.
  ghost function Succ(ds: seq<Byte>): seq<Byte>
    requires Digits(ds)
  {
    if ds == [] then [49]
    else
      var last := |ds| - 1;
      if ds[last] < 57 then ds[..last] + [ds[last] + 1] else Succ(ds[..last]) + [48]
  }

  lemma {:induction false} DecDigits(n: nat)
    ensures Digits(Dec(n))
  {
    if n >= 10 { DecDigits(n / 10); }
  }

  lemma {:induction false} SuccIsNext(n: nat)
    ensures Digits(Dec(n)) && Succ(Dec(n)) == Dec(n + 1)
  {
    DecDigits(n);
    if n % 10 < 9 {
      assert (n + 1) / 10 == n / 10;
    } else {
      assert (n + 1) / 10 == n / 10 + 1;
      if n >= 10 {
        SuccIsNext(n / 10);
        assert Dec(n)[..|Dec(n)| - 1] == Dec(n / 10);
      } else {
        assert Succ(Dec(9)[..0]) == [49];
      }
    }
  }

  // The digits from index from on are nines and the one before is not.
  ghost predicate CarryStops(ds: seq<Byte>, from: nat) {
    && from <= |ds| && (forall i | from <= i < |ds| :: ds[i] == 57)
    && (from > 0 ==> ds[from - 1] < 57)
  }

  // Nines at the end turn to zeros and the digit before them rises; all nines become a
  // one and zeros.
  lemma {:induction false} Carry(ds: seq<Byte>, from: nat)
    requires Digits(ds) && CarryStops(ds, from)
    ensures var s := Succ(ds);
      if from == 0 then |s| == |ds| + 1 && s[0] == 49 && forall i | 0 < i < |s| :: s[i] == 48
      else |s| == |ds| && forall i | 0 <= i < |s| ::
        s[i] == if i < from - 1 then ds[i] else if i == from - 1 then ds[i] + 1 else 48
    decreases |ds|
  {
    if from < |ds| {
      Carry(ds[..|ds| - 1], from);
    }
  }

  class LineCounter {
    const buf: array<Byte>
    // Indices of the first digit and of where printing starts.
    var start: nat
    var print_: nat
    ghost var count: nat

    ghost predicate Valid()
      reads this, buf
    {
      && buf.Length == 20 && start <= 17
      && buf[start..18] == Dec(count)
      && (forall i | 0 <= i < start :: buf[i] == 32)
      && print_ == (if start < 12 then start else 12)
      && buf[18] == TAB && buf[19] == 0
    }

    constructor ()
      ensures Valid() && count == 0 && fresh(buf)
    {
      buf := new Byte[20](i => if i < 17 then 32 else if i == 17 then 48 else if i == 18 then TAB else 0);
      start, print_, count := 17, 12, 0;
      new;
      assert buf[17..18] == Dec(0);
    }

    // What stpcpy copies from line_num_print on is the line number, in six columns or more.
    lemma Text()
      requires Valid()
      ensures buf[print_..19] == LineNo(count)
    {
      assert buf[print_..19] == buf[print_..start] + buf[start..18] + [TAB];
      AllSpaces(buf[print_..start]);
    }

    lemma NoTerminator()
      requires Valid()
      ensures forall k | print_ <= k < 19 :: buf[k] != 0
    {
      DecDigits(count);
      forall k | start <= k < 18 ensures buf[k] != 0 {
        assert buf[k] == buf[start..18][k - start];
      }
    }

    // next_line_num: the next number as long as 18 digits hold it; then '>' marks the
    // overflow.
    method NextLineNum()
      requires Valid()
      modifies this, buf
      ensures |Dec(old(count) + 1)| <= 18 ==> Valid() && count == old(count) + 1
      ensures |Dec(old(count) + 1)| > 18 ==> buf[0] == 62
    {
      ghost var ds := buf[start..18];
      SuccIsNext(count);
      count := count + 1;
      var endp := ZeroNines(ds);
      if endp >= start {
        RaiseDigit(endp, ds);
      } else {
        GrowNumeral(ds);
      }
    }

    // The numeral ds stands in the buffer, with zeros after position endp.
    ghost predicate Zeroed(endp: int, ds: seq<Byte>)
      reads this`start, buf
    {
      && buf.Length == 20 && start <= 17 && |ds| == 18 - start
      && forall i | 0 <= i < 20 :: buf[i] == if i < start then 32 else if i <= endp && i < 18 then ds[i - start]
                                             else if i < 18 then 48 else if i == 18 then TAB else 0
    }

    // Nines at the end of the numeral become zeros.
    method ZeroNines(ghost ds: seq<Byte>) returns (endp: int)
      requires Zeroed(17, ds) && Digits(ds)
      modifies buf
      ensures start - 1 <= endp <= 17 && CarryStops(ds, endp + 1 - start) && Zeroed(endp, ds)
    {
      endp := 17;
      while endp >= start && buf[endp] == 57
        invariant start - 1 <= endp <= 17 && Zeroed(endp, ds)
        invariant forall i | endp + 1 - start <= i < |ds| :: ds[i] == 57
      {
        buf[endp] := 48;
        endp := endp - 1;
      }
      assert endp >= start ==> buf[endp] == ds[endp - start];
    }

    // The digits after endp were nines and are zeros now: the digit there rises.
    method RaiseDigit(endp: nat, ghost ds: seq<Byte>)
      requires buf.Length == 20 && start <= endp <= 17 && print_ == (if start < 12 then start else 12)
      requires Digits(ds) && |ds| == 18 - start && Succ(ds) == Dec(count) && CarryStops(ds, endp + 1 - start)
      requires Zeroed(endp, ds)
      modifies buf
      ensures Valid() && |Dec(count)| <= 18
    {
      Carry(ds, endp + 1 - start);
      RaiseAt(endp, ds, Succ(ds));
    }

    method RaiseAt(endp: nat, ghost ds: seq<Byte>, ghost next: seq<Byte>)
      requires buf.Length == 20 && start <= endp <= 17 && Zeroed(endp, ds)
      requires |ds| == |next| == 18 - start && ds[endp - start] < 57
      requires forall i | 0 <= i < |next| ::
          next[i] == if i < endp - start then ds[i] else if i == endp - start then ds[i] + 1 else 48
      modifies buf
      ensures buf[start..18] == next && buf[18] == TAB && buf[19] == 0 && forall i | 0 <= i < start :: buf[i] == 32
    {
      buf[endp] := buf[endp] + 1;
      forall i | 0 <= i < |next| ensures buf[start + i] == next[i] {
      }
    }

    // All digits were nines and are zeros now: a digit is added in front.
    method GrowNumeral(ghost ds: seq<Byte>)
      requires buf.Length == 20 && start <= 17 && print_ == (if start < 12 then start else 12)
      requires Digits(ds) && |ds| == 18 - start && Succ(ds) == Dec(count) && CarryStops(ds, 0)
      requires Zeroed(start - 1, ds)
      modifies this`start, this`print_, buf
      ensures |Dec(count)| <= 18 ==> Valid()
      ensures |Dec(count)| > 18 ==> buf[0] == 62
    {
      Carry(ds, 0);
      if start > 0 {
        start := start - 1;
        buf[start] := 49;
        assert buf[start..18] == Succ(ds);
      } else {
        buf[0] := 62;
      }
      if start < print_ {
        print_ := print_ - 1;
      }
    }
  }

  lemma AllSpaces(s: seq<Byte>)
    requires forall i | 0 <= i < |s| :: s[i] == 32
    ensures s == Spaces(|s|)
  {
    if s != [] {
      var t := s[..|s| - 1];
      AllSpaces(t);
      assert s == t + [32];
    }
  }

  // ---- The process ----

  const MAX_COUNT: nat := 9999999999

  // The bytes of a file, from the reads that deliver it.
  ghost function Flat(chunks: seq<seq<Byte>>): seq<Byte> {
    if chunks == [] then [] else chunks[0] + Flat(chunks[1..])
  }

  // A file: the buffer size its device asks for, and what its reads will return.
  datatype File = File(insize: nat, chunks: seq<seq<Byte>>) {
    ghost predicate Ok() { insize > 0 && forall i | 0 <= i < |chunks| :: 0 < |chunks[i]| <= insize }
  }

  ghost function AllBytes(files: seq<File>): seq<Byte> {
    if files == [] then [] else Flat(files[0].chunks) + AllBytes(files[1..])
  }

  class CatProcess {
    const f: Flags
    // Static: the line counter, and what carries over from file to file.
    const counter: LineCounter
    var newlines: int
    var pendingCr: bool
    // What has been written to standard output.
    var written: seq<Byte>
    // The buffers, and the reads still to come of the open file.
    var inbuf: array<Byte>
    var outbuf: array<Byte>
    var insize: nat
    const outsize: nat
    var eob: nat
    var bpout: nat
    var chunks: seq<seq<Byte>>
    // The bytes of the files after this one, and the output promised for everything.
    ghost var later: seq<Byte>
    ghost var promise: seq<Byte>
    // Out and the count of Final, as values: most steps need not look into them.
    ghost const owed: (State, seq<Byte>) -> seq<Byte>
    ghost const lastCount: (State, seq<Byte>) -> nat

    ghost predicate SpecIs() {
      && (forall st: State, s: seq<Byte> {:trigger Out(f, st, s)} :: owed(st, s) == Out(f, st, s))
      && (forall st: State, s: seq<Byte> {:trigger Final(f, st, s)} :: lastCount(st, s) == Final(f, st, s).count)
    }

    ghost predicate Shape()
      reads this`inbuf, this`outbuf, this`insize, this`bpout, this`eob, this`chunks
      reads counter, counter.buf
    {
      && counter.Valid() && SpecIs()
      && inbuf != outbuf && inbuf != counter.buf && outbuf != counter.buf
      && insize > 0 && outsize > 0
      && inbuf.Length == insize + 1 && outbuf.Length == 4 * insize + outsize + 19
      && bpout <= outbuf.Length
      && eob <= insize
      && (forall i | 0 <= i < |chunks| :: 0 < |chunks[i]| <= insize)
    }

    ghost predicate CarryOk()
      reads this`newlines, this`pendingCr, counter`count
    {
      StateOk(St()) && (pendingCr ==> f.showEnds)
    }

    ghost function St(): State
      reads this`newlines, this`pendingCr, counter`count
    {
      State(newlines, pendingCr, counter.count)
    }

    // The input not yet dealt with from position k of the buffer on.
    ghost function Rest(k: nat): seq<Byte>
      requires k <= eob <= inbuf.Length
      reads this`inbuf, this`eob, this`chunks, this`later, inbuf
    {
      inbuf[k..eob] + (Flat(chunks) + later)
    }

    ghost function Emitted(): seq<Byte>
      requires bpout <= outbuf.Length
      reads this`written, this`bpout, this`outbuf, outbuf
    {
      written + outbuf[..bpout]
    }

    // What is out, and what the rest will add, is what was promised; no line number of
    // the rest has more than 10 digits.
    ghost predicate OnTrack(st: State, rest: seq<Byte>)
      requires bpout <= outbuf.Length
      reads this`written, this`bpout, this`outbuf, this`promise, outbuf
    {
      Emitted() + owed(st, rest) == promise && lastCount(st, rest) <= MAX_COUNT
    }

    // Byte k of the buffer has been dealt with.
    lemma Advance(was: seq<Byte>, st: State, k: nat)
      requires k < eob <= inbuf.Length && bpout <= outbuf.Length
      requires SpecIs() && was + owed(st, Rest(k)) == promise && lastCount(st, Rest(k)) <= MAX_COUNT
      requires Emitted() == was + Emit(f, st, inbuf[k])
      ensures OnTrack(Next(f, st, inbuf[k]), Rest(k + 1))
    {
      Unread(k);
      OneByte(f, st, Rest(k), was);
    }

    lemma Unread(k: nat)
      requires k < eob <= inbuf.Length
      ensures Rest(k) == [inbuf[k]] + Rest(k + 1) && Rest(k)[1..] == Rest(k + 1)
    {
      assert inbuf[k..eob] == [inbuf[k]] + inbuf[k + 1..eob];
    }

    constructor (f: Flags, outsize: nat)
      requires outsize > 0
      ensures this.f == f && this.outsize == outsize
      ensures counter.Valid() && fresh(counter) && fresh(counter.buf)
      ensures St() == START && written == [] && SpecIs()
    {
      this.f, this.outsize := f, outsize;
      counter := new LineCounter();
      newlines, pendingCr, written := 0, false, [];
      insize, eob, bpout, chunks := 0, 0, 0, [];
      inbuf, outbuf := new Byte[0], new Byte[0];
      later, promise := [], [];
      owed := (st, s) => Out(f, st, s);
      lastCount := (st, s) => Final(f, st, s).count;
    }

    method Put(b: Byte)
      requires bpout < outbuf.Length
      modifies this`bpout, outbuf
      ensures bpout == old(bpout) + 1 && Emitted() == old(Emitted()) + [b]
    {
      outbuf[bpout] := b;
      bpout := bpout + 1;
    }

    method PutTwo(a: Byte, b: Byte)
      requires bpout + 2 <= outbuf.Length
      modifies this`bpout, outbuf
      ensures bpout == old(bpout) + 2 && Emitted() == old(Emitted()) + [a, b]
    {
      Put(a);
      Put(b);
    }

    // stpcpy (bpout, line_num_print), the terminator included.
    method PutNumber()
      requires counter.Valid() && outbuf != counter.buf && |Dec(counter.count)| <= 10
      requires bpout + 12 <= outbuf.Length
      modifies this`bpout, outbuf
      ensures bpout <= old(bpout) + 11
      ensures Emitted() == old(Emitted()) + LineNo(counter.count)
    {
      counter.Text();
      counter.NoTerminator();
      var i := counter.print_;
      while counter.buf[i] != 0
        invariant counter.print_ <= i <= 19 && bpout == old(bpout) + i - counter.print_
        invariant Emitted() == old(Emitted()) + counter.buf[counter.print_..i]
        invariant forall k | counter.print_ <= k < 19 :: counter.buf[k] != 0
        decreases 19 - i
      {
        Put(counter.buf[i]);
        i := i + 1;
      }
      outbuf[bpout] := 0;
    }

    // The next line number, counted and written.
    method NumberLine()
      requires Shape() && counter.count < MAX_COUNT && bpout + 12 <= outbuf.Length
      modifies this`bpout, outbuf, counter, counter.buf
      ensures Shape() && counter.count == old(counter.count) + 1
      ensures bpout <= old(bpout) + 11
      ensures Emitted() == old(Emitted()) + LineNo(counter.count)
    {
      TenDigitsIff(counter.count + 1);
      counter.NextLineNum();
      PutNumber();
    }

    // At least outsize bytes are waiting: write them out in blocks, move the rest down.
    method Flush()
      requires Shape()
      modifies this`bpout, this`written, outbuf
      ensures Shape() && bpout < outsize && Emitted() == old(Emitted())
    {
      if outsize <= bpout {
        ghost var em := Emitted();
        var wp := WriteBlocks();
        ghost var rest := outbuf[wp..bpout];
        assert em == written + rest;
        var remaining := bpout - wp;
        MoveDown(wp, remaining);
        bpout := remaining;
      }
    }

    method WriteBlocks() returns (wp: nat)
      requires Shape()
      modifies this`written
      ensures wp <= bpout < wp + outsize && written == old(written) + outbuf[..wp]
      ensures old(Emitted()) == written + outbuf[wp..bpout]
    {
      wp := 0;
      while outsize <= bpout - wp
        invariant wp <= bpout && written == old(written) + outbuf[..wp]
      {
        written := written + outbuf[wp..wp + outsize];
        wp := wp + outsize;
      }
      assert outbuf[..bpout] == outbuf[..wp] + outbuf[wp..bpout];
    }

    // memmove (outbuf, wp, n)
    method MoveDown(wp: nat, n: nat)
      requires wp + n <= outbuf.Length
      modifies outbuf
      ensures outbuf[..n] == old(outbuf[wp..wp + n])
    {
      for k := 0 to n
        invariant forall i | 0 <= i < k :: outbuf[i] == old(outbuf[wp + i])
        invariant forall i | k <= i < outbuf.Length :: outbuf[i] == old(outbuf[i])
      {
        outbuf[k] := outbuf[wp + k];
      }
    }

    method WritePending()
      requires Shape()
      modifies this`bpout, this`written
      ensures Shape() && bpout == 0 && Emitted() == old(Emitted())
    {
      if bpout > 0 {
        written := written + outbuf[..bpout];
        bpout := 0;
      }
    }

    // safe_read, and the sentinel after what it read.
    method Read()
      requires Shape() && chunks != []
      modifies this`eob, this`chunks, inbuf
      ensures Shape() && 0 < eob && inbuf[eob] == LF
      ensures chunks == old(chunks)[1..]
      ensures Rest(0) == old(Rest(eob)) && outbuf[..] == old(outbuf[..])
    {
      var block := chunks[0];
      for i := 0 to |block|
        invariant inbuf[..i] == block[..i]
        modifies inbuf
      {
        inbuf[i] := block[i];
      }
      eob := |block|;
      inbuf[eob] := LF;
      assert inbuf[0..eob] == block;
      chunks := chunks[1..];
    }

    // Lines 337-384: a newline of the input.
    method RealNewline(k: nat)
      requires Shape() && CarryOk() && k < eob && inbuf[k] == LF && bpout < outsize
      requires OnTrack(St(), Rest(k))
      modifies this`newlines, this`pendingCr, this`bpout, outbuf, counter, counter.buf
      ensures Shape() && CarryOk() && St() == Next(f, old(St()), LF)
      ensures OnTrack(St(), Rest(k + 1)) && bpout <= outsize + 12
    {
      ghost var was, st := Emitted(), St();
      CountAhead(k);
      NewlineOut();
      Advance(was, st, k);
    }

    method NewlineOut()
      requires Shape() && CarryOk() && bpout < outsize && Next(f, St(), LF).count <= MAX_COUNT
      modifies this`newlines, this`pendingCr, this`bpout, outbuf, counter, counter.buf
      ensures Shape() && CarryOk()
      ensures St() == Next(f, old(St()), LF) && Emitted() == old(Emitted()) + Emit(f, old(St()), LF)
      ensures bpout <= old(bpout) + 13
    {
      NewlineEmits(f, St(), Emitted());
      var squeezed := CountNewline();
      if !squeezed { EndLine(); }
    }

    // Lines 342-368: the empty lines counted, and numbered unless squeezed away.
    method CountNewline() returns (squeezed: bool)
      requires Shape() && CarryOk() && bpout < outsize
      requires BlankNumbered(f, St()) && !Squeezed(f, St()) ==> counter.count < MAX_COUNT
      modifies this`newlines, this`bpout, outbuf, counter, counter.buf
      ensures Shape()
      ensures squeezed == Squeezed(f, old(St())) && newlines == AfterNewline(old(St()))
      ensures var numbered := !squeezed && BlankNumbered(f, old(St()));
        && counter.count == old(counter.count) + (if numbered then 1 else 0)
        && Emitted() == old(Emitted()) + (if numbered then LineNo(counter.count) else [])
        && bpout <= old(bpout) + (if numbered then 11 else 0)
    {
      squeezed := false;
      newlines := newlines + 1;
      if newlines > 0 {
        if newlines >= 2 {
          newlines := 2;
          if f.squeezeBlank { return true; }
        }
        if f.number && !f.numberNonblank {
          NumberLine();
        }
      }
    }

    // The next number is within bounds if the byte at k brings one.
    lemma CountAhead(k: nat)
      requires SpecIs() && k < eob <= inbuf.Length && bpout <= outbuf.Length && OnTrack(St(), Rest(k))
      ensures Next(f, St(), inbuf[k]).count <= MAX_COUNT
    {
      Unread(k);
      assert lastCount(St(), Rest(k)) == Final(f, St(), Rest(k)).count;
      CountGrows(f, Next(f, St(), inbuf[k]), Rest(k + 1));
    }

    // Lines 370-384: the $ of -E and the newline.
    method EndLine()
      requires Shape() && bpout + 4 <= outbuf.Length
      modifies this`pendingCr, this`bpout, outbuf
      ensures Shape()
      ensures Emitted() == old(Emitted()) + Eol(f, old(pendingCr))
      ensures bpout <= old(bpout) + if old(pendingCr) then 4 else 2
      ensures pendingCr == (old(pendingCr) && !f.showEnds)
    {
      if f.showEnds {
        if pendingCr {
          PutTwo(94, 77);
          pendingCr := false;
        }
        Put(36);
      }
      Put(LF);
    }

    // Room for what the bytes of the buffer from k on can become.
    ghost predicate Room(k: nat, more: nat)
      reads this`eob, this`bpout, this`outbuf
    {
      k <= eob && bpout + more + 4 * (eob - k) <= outbuf.Length
    }

    // In the middle of a line.
    ghost function InLine(): State
      reads this`pendingCr, counter`count
    {
      State(-1, pendingCr, counter.count)
    }

    // Lines 392-404: the carriage return held back, or the line number.
    method BeginText(ghost k: nat)
      requires Shape() && CarryOk() && k < eob && inbuf[k] != LF
      requires OnTrack(St(), Rest(k)) && Room(k, 11)
      modifies this`pendingCr, this`bpout, outbuf, counter, counter.buf
      ensures Shape() && !pendingCr
      ensures counter.count == old(counter.count) + if LineNumbered(f, old(St())) then 1 else 0
      ensures OnTrack(InLine(), Rest(k)) && Room(k, 0)
    {
      ghost var was, st := Emitted(), St();
      CountAhead(k);
      TextPrefix();
      TextAdvance(was, st, k);
    }

    lemma TextAdvance(was: seq<Byte>, st: State, k: nat)
      requires k < eob <= inbuf.Length && bpout <= outbuf.Length && inbuf[k] != LF
      requires SpecIs() && was + owed(st, Rest(k)) == promise && lastCount(st, Rest(k)) <= MAX_COUNT
      requires Emitted() == was + TextStart(f, st)
      ensures OnTrack(State(-1, false, st.count + if LineNumbered(f, st) then 1 else 0), Rest(k))
    {
      Unread(k);
      TextBegins(f, st, Rest(k), was);
    }

    method TextPrefix()
      requires Shape() && CarryOk() && bpout + 12 <= outbuf.Length
      requires LineNumbered(f, St()) ==> counter.count < MAX_COUNT
      modifies this`pendingCr, this`bpout, outbuf, counter, counter.buf
      ensures Shape() && !pendingCr
      ensures counter.count == old(counter.count) + (if LineNumbered(f, old(St())) then 1 else 0)
      ensures Emitted() == old(Emitted()) + TextStart(f, old(St())) && bpout <= old(bpout) + 11
    {
      Regroup(Emitted(), if pendingCr then [CR] else [], Numbered(LineNumbered(f, St()), counter.count));
      PutHeldBack();
      PutLineNumber();
    }

    method PutLineNumber()
      requires Shape() && (LineNumbered(f, St()) ==> counter.count < MAX_COUNT && bpout + 12 <= outbuf.Length)
      modifies this`bpout, outbuf, counter, counter.buf
      ensures Shape() && bpout <= old(bpout) + 11
      ensures counter.count == old(counter.count) + (if LineNumbered(f, old(St())) then 1 else 0)
      ensures Emitted() == old(Emitted()) + Numbered(LineNumbered(f, old(St())), old(counter.count))
      ensures !LineNumbered(f, old(St())) ==> bpout == old(bpout)
    {
      if newlines >= 0 && f.number {
        NumberLine();
      }
    }

    method PutHeldBack()
      requires Shape() && bpout < outbuf.Length
      modifies this`pendingCr, this`bpout, outbuf
      ensures Shape() && !pendingCr && bpout == old(bpout) + if old(pendingCr) then 1 else 0
      ensures Emitted() == old(Emitted()) + if old(pendingCr) then [CR] else []
    {
      if pendingCr {
        Put(CR);
        pendingCr := false;
      }
    }

    // The branches of lines 416-457.
    method PutQuoted(ch: Byte)
      requires bpout + 4 <= outbuf.Length && ch != LF
      modifies this`bpout, outbuf
      ensures bpout <= outbuf.Length && Emitted() == old(Emitted()) + Quoted(ch, f.showTabs) && bpout <= old(bpout) + 4
    {
      if ch >= 32 {
        if ch < 127 {
          Put(ch);
        } else if ch == 127 {
          Put(94);
          Put(63);
        } else {
          PutMeta(ch);
        }
      } else if ch == TAB && !f.showTabs {
        Put(TAB);
      } else {
        Put(94);
        Put(ch + 64);
      }
    }

    method PutMeta(ch: Byte)
      requires bpout + 4 <= outbuf.Length && ch >= 128
      modifies this`bpout, outbuf
      ensures bpout <= outbuf.Length && Emitted() == old(Emitted()) + Quoted(ch, f.showTabs) && bpout <= old(bpout) + 4
    {
      PutTwo(77, 45);
      if ch >= 128 + 32 {
        if ch < 128 + 127 {
          Put(ch - 128);
        } else {
          PutTwo(94, 63);
        }
      } else {
        PutTwo(94, ch - 128 + 64);
      }
    }

    // newlines = -1
    method LeaveLine(ghost k: nat)
      requires Shape() && k <= eob && OnTrack(InLine(), Rest(k)) && (pendingCr ==> f.showEnds)
      modifies this`newlines
      ensures Shape() && CarryOk() && OnTrack(St(), Rest(k)) && newlines == -1
    {
      newlines := -1;
    }

    // The loop of lines 414-460, up to the newline or the sentinel.
    method QuotedLoop(first: nat) returns (k: nat)
      requires f.showNonprinting && Shape() && first < eob && inbuf[first] != LF && inbuf[eob] == LF
      requires !pendingCr && OnTrack(InLine(), Rest(first)) && Room(first, 0)
      modifies this`bpout, outbuf
      ensures Shape() && !pendingCr && first < k <= eob && inbuf[k] == LF
      ensures OnTrack(InLine(), Rest(k))
    {
      k := first;
      while inbuf[k] != LF
        invariant Shape() && first <= k <= eob
        invariant !pendingCr
        invariant OnTrack(InLine(), Rest(k)) && Room(k, 0)
        decreases eob - k
        modifies this`bpout, outbuf
      {
        QuotedByte(k);
        k := k + 1;
      }
    }

    method QuotedByte(k: nat)
      requires f.showNonprinting && Shape() && k < eob && inbuf[k] != LF
      requires !pendingCr && OnTrack(InLine(), Rest(k)) && Room(k, 0)
      modifies this`bpout, outbuf
      ensures Shape()
      ensures OnTrack(InLine(), Rest(k + 1)) && Room(k + 1, 0)
    {
      ghost var was := Emitted();
      PutQuoted(inbuf[k]);
      Advance(was, InLine(), k);
    }

    // The loop of lines 465-494, up to the newline or the sentinel.
    method PlainLoop(first: nat) returns (k: nat)
      requires !f.showNonprinting && Shape() && first < eob && inbuf[first] != LF && inbuf[eob] == LF
      requires !pendingCr && OnTrack(InLine(), Rest(first)) && Room(first, 0)
      modifies this`pendingCr, this`bpout, outbuf
      ensures Shape() && (pendingCr ==> f.showEnds) && first < k <= eob && inbuf[k] == LF
      ensures OnTrack(InLine(), Rest(k))
    {
      k := first;
      while inbuf[k] != LF
        invariant Shape() && first <= k <= eob
        invariant pendingCr ==> f.showEnds && k == eob
        invariant OnTrack(InLine(), Rest(k)) && Room(k, 0)
        decreases eob - k
        modifies this`pendingCr, this`bpout, outbuf
      {
        PlainByte(k);
        k := k + 1;
      }
    }

    // One byte of that loop.  A carriage return before a newline is shown, before the
    // sentinel it is held back.
    method PlainByte(k: nat)
      requires !f.showNonprinting && Shape() && k < eob && inbuf[k] != LF && inbuf[eob] == LF
      requires !pendingCr && OnTrack(InLine(), Rest(k)) && Room(k, 0)
      modifies this`pendingCr, this`bpout, outbuf
      ensures Shape()
      ensures pendingCr ==> f.showEnds && k + 1 == eob
      ensures OnTrack(InLine(), Rest(k + 1)) && Room(k + 1, 0)
    {
      var ch := inbuf[k];
      if ch == TAB && f.showTabs {
        ShownTab(k);
      } else if ch == CR && inbuf[k + 1] == LF && f.showEnds {
        CarriageReturn(k);
      } else {
        PlainPut(k);
      }
    }

    method ShownTab(k: nat)
      requires !f.showNonprinting && Shape() && k < eob && inbuf[k] == TAB && f.showTabs
      requires !pendingCr && OnTrack(InLine(), Rest(k)) && Room(k, 0)
      modifies this`bpout, outbuf
      ensures Shape() && OnTrack(InLine(), Rest(k + 1)) && Room(k + 1, 0)
    {
      ghost var was := Emitted();
      PutTwo(94, inbuf[k] + 64);
      TabShown(f, InLine());
      Advance(was, InLine(), k);
    }

    method PlainPut(k: nat)
      requires !f.showNonprinting && Shape() && k < eob && inbuf[k] != LF && inbuf[eob] == LF
      requires !(inbuf[k] == TAB && f.showTabs) && !(inbuf[k] == CR && inbuf[k + 1] == LF && f.showEnds)
      requires !pendingCr && OnTrack(InLine(), Rest(k)) && Room(k, 0)
      modifies this`bpout, outbuf
      ensures Shape() && OnTrack(InLine(), Rest(k + 1)) && Room(k + 1, 0)
    {
      if HeldBack(f, inbuf[k]) {
        PutLoneCr(k);
      } else {
        PutShown(k);
      }
    }

    method PutShown(k: nat)
      requires Shape() && k < eob && inbuf[k] != LF && !HeldBack(f, inbuf[k]) && Shown(f, inbuf[k]) == [inbuf[k]]
      requires !pendingCr && OnTrack(InLine(), Rest(k)) && Room(k, 0)
      modifies this`bpout, outbuf
      ensures Shape() && OnTrack(InLine(), Rest(k + 1)) && Room(k + 1, 0)
    {
      ghost var was := Emitted();
      Put(inbuf[k]);
      Advance(was, InLine(), k);
    }

    method PutLoneCr(k: nat)
      requires Shape() && k + 1 < eob && HeldBack(f, inbuf[k]) && inbuf[k + 1] != LF
      requires !pendingCr && OnTrack(InLine(), Rest(k)) && Room(k, 0)
      modifies this`bpout, outbuf
      ensures Shape() && OnTrack(InLine(), Rest(k + 1)) && Room(k + 1, 0)
    {
      ghost var was := Emitted();
      Put(inbuf[k]);
      CrAhead(was, counter.count, k);
    }

    // Lines 474-483.
    method CarriageReturn(k: nat)
      requires Shape() && k < eob && HeldBack(f, inbuf[k]) && inbuf[k + 1] == LF
      requires !pendingCr && OnTrack(InLine(), Rest(k)) && Room(k, 0)
      modifies this`pendingCr, this`bpout, outbuf
      ensures Shape() && (pendingCr ==> k + 1 == eob)
      ensures OnTrack(InLine(), Rest(k + 1)) && Room(k + 1, 0)
    {
      ghost var was, st := Emitted(), InLine();
      if k + 1 == eob {
        pendingCr := true;
        Advance(was, st, k);
      } else {
        Put(94);
        Put(77);
        CrLfAhead(was, st.count, k);
      }
    }

    // Where the next byte is looked for: the byte before position bpin was a newline, of
    // the input or the sentinel.
    ghost predicate AtNewline(bpin: nat)
      reads this`eob, this`inbuf, inbuf
    {
      && 1 <= bpin <= eob + 1 <= inbuf.Length
      && (bpin <= eob ==> inbuf[eob] == LF && inbuf[bpin - 1] == LF)
    }

    // The loop of lines 247-388: newlines and empty buffers, up to the first byte of text
    // or the end of the file.
    method FindText(start: nat) returns (more: bool, bpin: nat)
      requires Shape() && CarryOk() && AtNewline(start) && OnTrack(St(), Rest(start - 1))
      modifies this`newlines, this`pendingCr, this`written, this`bpout, this`eob, this`chunks
      modifies inbuf, outbuf, counter, counter.buf
      ensures Shape() && CarryOk()
      ensures !more ==> chunks == [] && bpout == 0 && OnTrack(St(), later)
      ensures more ==> 1 <= bpin <= eob && inbuf[bpin - 1] != LF && inbuf[eob] == LF
      ensures more ==> OnTrack(St(), Rest(bpin - 1)) && Room(bpin - 1, 11)
      ensures |chunks| <= |old(chunks)| && (|chunks| == |old(chunks)| ==> eob == old(eob))
      ensures more && |chunks| == |old(chunks)| ==> start < bpin
    {
      bpin := start;
      var ch := LF;
      while ch == LF
        invariant Shape() && CarryOk()
        invariant ch == LF ==> AtNewline(bpin)
        invariant ch != LF ==> 1 <= bpin <= eob && inbuf[bpin - 1] == ch && inbuf[eob] == LF && Room(bpin - 1, 11)
        invariant 1 <= bpin <= eob + 1 && OnTrack(St(), Rest(bpin - 1))
        invariant |chunks| <= |old(chunks)| && (|chunks| == |old(chunks)| ==> eob == old(eob) && start <= bpin)
        invariant ch != LF && |chunks| == |old(chunks)| ==> start < bpin
        decreases |chunks|, eob + 1 - bpin
      {
        more, bpin := Probe(bpin);
        if !more { return; }
        ch := inbuf[bpin];
        bpin := bpin + 1;
      }
      more := true;
    }

    // One round of that loop: the position of the next byte, or the end of the file.
    method Probe(bpin: nat) returns (more: bool, k: nat)
      requires Shape() && CarryOk() && AtNewline(bpin) && OnTrack(St(), Rest(bpin - 1))
      modifies this`newlines, this`pendingCr, this`written, this`bpout, this`eob, this`chunks
      modifies inbuf, outbuf, counter, counter.buf
      ensures Shape() && CarryOk()
      ensures !more ==> chunks == [] && bpout == 0 && OnTrack(St(), later)
      ensures more ==> k <= eob && inbuf[eob] == LF && OnTrack(St(), Rest(k))
      ensures more && inbuf[k] != LF ==> Room(k, 11)
      ensures more ==> |chunks| < |old(chunks)| || (|chunks| == |old(chunks)| && eob == old(eob) && k == bpin)
      ensures !more ==> |chunks| == |old(chunks)| && eob == old(eob)
    {
      more, k := true, bpin;
      Flush();
      if bpin > eob {
        if chunks == [] {
          WritePending();
          RestAtEnd();
          return false, bpin;
        }
        Refill();
        k := 0;
      } else {
        RealNewline(bpin - 1);
      }
    }

    lemma RestAtEnd()
      requires eob <= inbuf.Length && chunks == []
      ensures Rest(eob) == later
    {
      assert inbuf[eob..eob] == [];
    }

    // Lines 275-333: whether input is waiting decides if output is written before it is
    // read.
    method Refill()
      requires Shape() && CarryOk() && chunks != [] && bpout < outsize && OnTrack(St(), Rest(eob))
      modifies this`written, this`bpout, this`eob, this`chunks, inbuf
      ensures Shape() && CarryOk() && chunks == old(chunks)[1..]
      ensures 0 < eob && inbuf[eob] == LF && bpout < outsize
      ensures OnTrack(St(), Rest(0))
    {
      var inputPending: bool := *;
      if !inputPending { WritePending(); }
      Read();
    }

    // cat(), for one file whose reads are left in chunks: what is written, and what the
    // later files will add, is what was promised before the call.
    method CatFile()
      requires Shape() && CarryOk() && eob == 0 && OnTrack(St(), Rest(0))
      modifies this`newlines, this`pendingCr, this`written, this`bpout, this`eob, this`chunks
      modifies inbuf, outbuf, counter, counter.buf
      ensures Shape() && CarryOk()
      ensures chunks == [] && bpout == 0 && OnTrack(St(), later)
    {
      var more, bpin := true, 1;
      while more
        invariant Shape() && CarryOk()
        invariant more ==> AtNewline(bpin) && OnTrack(St(), Rest(bpin - 1))
        invariant !more ==> chunks == [] && bpout == 0 && OnTrack(St(), later)
        decreases more, |chunks|, eob + 1 - bpin
      {
        more, bpin := OneTurn(bpin);
      }
    }

    // One turn of the outer loop.
    method OneTurn(start: nat) returns (more: bool, bpin: nat)
      requires Shape() && CarryOk() && AtNewline(start) && OnTrack(St(), Rest(start - 1))
      modifies this`newlines, this`pendingCr, this`written, this`bpout, this`eob, this`chunks
      modifies inbuf, outbuf, counter, counter.buf
      ensures Shape() && CarryOk()
      ensures !more ==> chunks == [] && bpout == 0 && OnTrack(St(), later)
      ensures more ==> AtNewline(bpin) && OnTrack(St(), Rest(bpin - 1))
      ensures more ==> |chunks| < |old(chunks)| || (|chunks| == |old(chunks)| && eob == old(eob) && start < bpin)
    {
      more, bpin := FindText(start);
      if more { bpin := TextToNewline(bpin - 1); }
    }

    // Lines 392-495, for the text from position first on; the position after the newline
    // or the sentinel.
    method TextToNewline(first: nat) returns (bpin: nat)
      requires Shape() && CarryOk() && first < eob && inbuf[first] != LF && inbuf[eob] == LF
      requires OnTrack(St(), Rest(first)) && Room(first, 11)
      modifies this`newlines, this`pendingCr, this`bpout, outbuf, counter, counter.buf
      ensures Shape() && CarryOk() && first + 1 < bpin && AtNewline(bpin) && OnTrack(St(), Rest(bpin - 1))
      ensures f.showNonprinting ==>
        St() == State(-1, false, old(counter.count) + if LineNumbered(f, old(St())) then 1 else 0)
    {
      var k := TextFrom(first);
      LeaveLine(k);
      bpin := k + 1;
    }

    method TextFrom(first: nat) returns (k: nat)
      requires Shape() && CarryOk() && first < eob && inbuf[first] != LF && inbuf[eob] == LF
      requires OnTrack(St(), Rest(first)) && Room(first, 11)
      modifies this`pendingCr, this`bpout, outbuf, counter, counter.buf
      ensures Shape() && first < k <= eob && inbuf[k] == LF && OnTrack(InLine(), Rest(k))
      ensures pendingCr ==> f.showEnds && !f.showNonprinting
      ensures counter.count == old(counter.count) + if LineNumbered(f, old(St())) then 1 else 0
    {
      BeginText(first);
      k := TextBytes(first);
    }

    method TextBytes(first: nat) returns (k: nat)
      requires Shape() && first < eob && inbuf[first] != LF && inbuf[eob] == LF
      requires !pendingCr && OnTrack(InLine(), Rest(first)) && Room(first, 0)
      modifies this`pendingCr, this`bpout, outbuf
      ensures Shape() && first < k <= eob && inbuf[k] == LF && OnTrack(InLine(), Rest(k))
      ensures pendingCr ==> f.showEnds && !f.showNonprinting
    {
      if f.showNonprinting {
        k := QuotedLoop(first);
      } else {
        k := PlainLoop(first);
      }
    }

    // A newline and the text after it up to the end of the block, with -v.
    method NewlineThenText(k: nat) returns (bpin: nat)
      requires f.showNonprinting && Shape() && CarryOk() && k + 1 < eob && inbuf[eob] == LF && bpout < outsize
      requires inbuf[k] == LF && forall j | k < j < eob :: inbuf[j] != LF
      requires OnTrack(St(), Rest(k))
      modifies this`newlines, this`pendingCr, this`bpout, outbuf, counter, counter.buf
      ensures Shape() && CarryOk() && bpin == eob + 1 && OnTrack(St(), Rest(eob))
      ensures var st1 := Next(f, old(St()), LF);
        St() == State(-1, false, st1.count + if LineNumbered(f, st1) then 1 else 0)
    {
      RealNewline(k);
      bpin := TextToNewline(k + 1);
      assert bpin == eob + 1;
    }

    // Nothing is written between, so all that they become is in the output buffer at once.
    method NewlineAndText(k: nat) returns (bpin: nat)
      requires f.showNonprinting && Shape() && CarryOk() && k + 1 < eob && inbuf[eob] == LF && bpout < outsize
      requires inbuf[k] == LF && forall j | k < j < eob :: inbuf[j] != LF
      requires OnTrack(St(), Rest(k))
      modifies this`newlines, this`pendingCr, this`bpout, outbuf, counter, counter.buf
      ensures bpin == eob + 1 && bpout <= outbuf.Length
      ensures outbuf[..bpout] == old(outbuf[..bpout]) + Placed(f, old(St()), inbuf[k..eob])
    {
      ghost var st, block, rest, was := St(), inbuf[k..eob], Flat(chunks) + later, outbuf[..bpout];
      assert LF !in block[1..];
      bpin := NewlineThenText(k);
      assert inbuf[eob..eob] + rest == rest;
      PlacedSince(f, st, St(), block, rest, written + was, Emitted(), promise);
      SamePrefix(written, outbuf[..bpout], was, Placed(f, st, block));
    }

    // main: cat() for each file in turn, with buffers of its own, and the carriage return
    // still held back at the end.  The output is what the documentation says of the bytes
    // of all files together, however the reads divide them.
    method CatFiles(files: seq<File>)
      requires counter.Valid() && SpecIs() && St() == START && written == [] && outsize > 0
      requires forall i | 0 <= i < |files| :: files[i].Ok()
      requires Final(f, START, AllBytes(files)).count <= MAX_COUNT
      modifies this, counter, counter.buf
      ensures written == CatLines(f, AllBytes(files), false, 0)
    {
      StartRun(AllBytes(files));
      EachFile(files);
      EndRun();
      LineByLine(f, AllBytes(files), START);
    }

    method StartRun(ghost all: seq<Byte>)
      requires SpecIs() && St() == START && written == [] && Final(f, START, all).count <= MAX_COUNT
      modifies this`promise, this`later, this`bpout, this`outbuf
      ensures bpout == 0 && CarryOk() && promise == Out(f, START, all) && later == all && OnTrack(St(), later)
    {
      promise, later, bpout, outbuf := Out(f, START, all), all, 0, new Byte[0];
    }

    method EachFile(files: seq<File>)
      requires counter.Valid() && SpecIs() && CarryOk() && outsize > 0 && bpout == 0
      requires forall i | 0 <= i < |files| :: files[i].Ok()
      requires later == AllBytes(files) && OnTrack(St(), later)
      modifies this`newlines, this`pendingCr, this`written, this`bpout, this`eob, this`chunks
      modifies this`inbuf, this`outbuf, this`insize, this`later, counter, counter.buf
      ensures bpout == 0 && OnTrack(St(), [])
    {
      for i := 0 to |files|
        invariant counter.Valid() && SpecIs() && CarryOk()
        invariant bpout == 0 && later == AllBytes(files[i..]) && OnTrack(St(), later)
      {
        assert files[i..][0] == files[i] && files[i..][1..] == files[i + 1..];
        OpenFile(files[i], AllBytes(files[i + 1..]));
        CatFile();
      }
    }

    // Lines 792-796.
    method EndRun()
      requires SpecIs() && bpout == 0 && OnTrack(St(), [])
      modifies this`written
      ensures written == promise
    {
      assert Out(f, St(), []) == if pendingCr then [CR] else [];
      assert outbuf[..0] == [];
      if pendingCr {
        written := written + [CR];
      }
    }

    // The buffers for a file.
    method OpenFile(file: File, ghost rest: seq<Byte>)
      requires counter.Valid() && SpecIs() && outsize > 0 && file.Ok()
      requires bpout == 0 && later == Flat(file.chunks) + rest && OnTrack(St(), later)
      modifies this`eob, this`chunks, this`inbuf, this`outbuf, this`insize, this`later
      ensures Shape() && eob == 0 && later == rest && fresh(inbuf) && fresh(outbuf)
      ensures OnTrack(St(), Rest(0))
    {
      ghost var em := Emitted();
      Allocate(file);
      later := rest;
      assert Emitted() == em by { assert outbuf[..0] == []; }
      assert Rest(0) == Flat(chunks) + later by { assert inbuf[0..0] == []; }
    }

    method Allocate(file: File)
      requires counter.Valid() && SpecIs() && outsize > 0 && file.Ok() && bpout == 0
      modifies this`eob, this`chunks, this`inbuf, this`outbuf, this`insize
      ensures Shape() && eob == 0 && chunks == file.chunks && fresh(inbuf) && fresh(outbuf)
    {
      insize := file.insize;
      inbuf := new Byte[insize + 1];
      outbuf := new Byte[4 * insize + outsize + 19];
      eob, chunks := 0, file.chunks;
    }

    // A carriage return with its newline in the buffer may be shown at once.
    lemma CrLfAhead(was: seq<Byte>, count: nat, k: nat)
      requires k + 1 < eob <= inbuf.Length && bpout <= outbuf.Length
      requires HeldBack(f, inbuf[k]) && inbuf[k + 1] == LF
      requires SpecIs() && was + owed(State(-1, false, count), Rest(k)) == promise
      requires lastCount(State(-1, false, count), Rest(k)) <= MAX_COUNT
      requires Emitted() == was + [94, 77]
      ensures OnTrack(State(-1, false, count), Rest(k + 1))
    {
      Unread(k);
      Unread(k + 1);
      CrLf(f, count, Rest(k + 2), was);
    }

    // So may one whose next byte in the buffer is not a newline.
    lemma CrAhead(was: seq<Byte>, count: nat, k: nat)
      requires k + 1 < eob <= inbuf.Length && bpout <= outbuf.Length
      requires HeldBack(f, inbuf[k]) && inbuf[k + 1] != LF
      requires SpecIs() && was + owed(State(-1, false, count), Rest(k)) == promise
      requires lastCount(State(-1, false, count), Rest(k)) <= MAX_COUNT
      requires Emitted() == was + [CR]
      ensures OnTrack(State(-1, false, count), Rest(k + 1))
    {
      Unread(k);
      Unread(k + 1);
      CrText(f, count, Rest(k + 1), was);
    }
  }

  ghost function TextStart(f: Flags, st: State): seq<Byte> {
    (if st.pendingCr then [CR] else []) + Numbered(LineNumbered(f, st), st.count)
  }

  lemma TextBegins(f: Flags, st: State, s: seq<Byte>, was: seq<Byte>)
    requires s != [] && s[0] != LF
    ensures var in_ := State(-1, false, st.count + if LineNumbered(f, st) then 1 else 0);
      && was + Out(f, st, s) == was + TextStart(f, st) + Out(f, in_, s)
      && Final(f, st, s) == Final(f, in_, s)
  {
    var in_ := State(-1, false, st.count + if LineNumbered(f, st) then 1 else 0);
    assert Next(f, st, s[0]) == Next(f, in_, s[0]);
    var tail := Out(f, Next(f, st, s[0]), s[1..]);
    TextEmit(f, st, in_, s[0]);
    Regroup(TextStart(f, st), Emit(f, in_, s[0]), tail);
    Regroup(was, TextStart(f, st), Out(f, in_, s));
  }

  lemma TextEmit(f: Flags, st: State, in_: State, b: Byte)
    requires b != LF && !in_.pendingCr && in_.newlines == -1
    ensures Emit(f, st, b) == TextStart(f, st) + Emit(f, in_, b)
  {
  }

  lemma CrLf(f: Flags, count: nat, t: seq<Byte>, was: seq<Byte>)
    requires HeldBack(f, CR)
    ensures var st := State(-1, false, count);
      && was + Out(f, st, [CR] + ([LF] + t)) == was + [94, 77] + Out(f, st, [LF] + t)
      && Final(f, st, [CR] + ([LF] + t)) == Final(f, st, [LF] + t)
  {
    CrEnded(f, t, count);
    EmptyEnded(f, t, count);
    assert ([CR] + ([LF] + t))[1..] == [LF] + t && ([LF] + t)[1..] == t;
    assert Next(f, State(-1, true, count), LF) == Next(f, State(-1, false, count), LF);
    Regroup(was, [94, 77], Out(f, State(-1, false, count), [LF] + t));
  }

  lemma CrText(f: Flags, count: nat, u: seq<Byte>, was: seq<Byte>)
    requires HeldBack(f, CR) && u != [] && u[0] != LF
    ensures var st := State(-1, false, count);
      && was + Out(f, st, [CR] + u) == was + [CR] + Out(f, st, u)
      && Final(f, st, [CR] + u) == Final(f, st, u)
  {
    InsideLine(f, CR, u, count);
    assert ([CR] + u)[1..] == u;
    Regroup(was, [CR], Out(f, State(-1, false, count), u));
  }

  lemma OneByte(f: Flags, st: State, s: seq<Byte>, was: seq<Byte>)
    requires s != []
    ensures was + Out(f, st, s) == was + Emit(f, st, s[0]) + Out(f, Next(f, st, s[0]), s[1..])
    ensures Final(f, st, s) == Final(f, Next(f, st, s[0]), s[1..])
  {
    Regroup(was, Emit(f, st, s[0]), Out(f, Next(f, st, s[0]), s[1..]));
  }

  // After text with -v the process is inside a line, which was numbered if it began here.
  lemma {:induction false} TextFinal(f: Flags, st: State, s: seq<Byte>)
    requires f.showNonprinting && s != [] && LF !in s
    ensures Final(f, st, s) == State(-1, false, st.count + if LineNumbered(f, st) then 1 else 0)
    decreases |s|
  {
    if |s| > 1 { TextFinal(f, Next(f, st, s[0]), s[1..]); }
  }

  // What a block added, from the promise before and after it.
  lemma PlacedSince(f: Flags, st: State, end: State, block: seq<Byte>, rest: seq<Byte>,
                    was: seq<Byte>, now: seq<Byte>, promise: seq<Byte>)
    requires f.showNonprinting && |block| > 1 && block[0] == LF && LF !in block[1..]
    requires var st1 := Next(f, st, LF); end == State(-1, false, st1.count + if LineNumbered(f, st1) then 1 else 0)
    requires was + Out(f, st, block + rest) == promise == now + Out(f, end, rest)
    ensures now == was + Placed(f, st, block)
  {
    TextFinal(f, Next(f, st, LF), block[1..]);
    OutConcat(f, st, block, rest);
    SameEnd(was, Placed(f, st, block), now, Out(f, end, rest));
  }

  lemma SamePrefix(w: seq<Byte>, now: seq<Byte>, was: seq<Byte>, added: seq<Byte>)
    requires w + now == w + was + added
    ensures now == was + added
  {
    assert now == (w + now)[|w|..] && was + added == (w + was + added)[|w|..];
  }

  lemma SameEnd(was: seq<Byte>, added: seq<Byte>, now: seq<Byte>, end: seq<Byte>)
    requires was + (added + end) == now + end
    ensures now == was + added
  {
    assert was + (added + end) == was + added + end;
    assert now == (now + end)[..|now|] && was + added == (was + added + end)[..|was + added|];
  }

  // Bytes that -v shows in four each.
  ghost function Highs(n: nat): (s: seq<Byte>)
    ensures |s| == n && LF !in s
  {
    if n == 0 then [] else [255] + Highs(n - 1)
  }

  lemma {:induction false} HighsPlaced(f: Flags, n: nat, count: nat)
    requires f.showNonprinting
    ensures |Placed(f, State(-1, false, count), Highs(n))| == 4 * n
  {
    if n > 0 { HighsPlaced(f, n - 1, count); }
  }

  // The worst block: a blank line that is numbered, then a line of such bytes.
  ghost function WorstBlock(insize: nat): seq<Byte>
    requires insize >= 2
  {
    [LF] + Highs(insize - 1)
  }

  lemma WorstPlaced(f: Flags, insize: nat, count: nat)
    requires f == Flags(true, false, true, false, true, false) && insize >= 2
    ensures |Placed(f, State(0, false, count), WorstBlock(insize))| ==
      |LineNo(count + 1)| + 2 + |LineNo(count + 2)| + 4 * (insize - 1)
  {
    var st, highs := State(1, false, count + 1), Highs(insize - 1);
    assert WorstBlock(insize)[1..] == highs;
    assert Next(f, State(0, false, count), LF) == st;
    assert highs == [255] + Highs(insize - 2) && highs[1..] == Highs(insize - 2);
    HighsPlaced(f, insize - 2, count + 2);
  }

  // Started with the buffer as full as the flush leaves it, the worst block fits exactly
  // when its numbers end within ten digits; with ten digits in both it fills the buffer,
  // and with one more it is a byte too long.
  lemma WorstBlockFits(insize: nat, outsize: nat, count: nat)
    requires insize >= 2 && outsize >= 1
    ensures var f := Flags(true, false, true, false, true, false);
      var end := outsize - 1 + |Placed(f, State(0, false, count), WorstBlock(insize))|;
      && (end <= 4 * insize + outsize + 19 <==> count + 2 <= MAX_COUNT)
      && (count + 2 == MAX_COUNT ==> end == 4 * insize + outsize + 19)
      && (count + 2 == MAX_COUNT + 1 ==> end == 4 * insize + outsize + 20)
  {
    WorstPlaced(Flags(true, false, true, false, true, false), insize, count);
    TenDigitsIff(count + 1);
    TenDigitsIff(count + 2);
    NineDigitsIff(count + 1);
    NineDigitsIff(count + 2);
    ElevenDigitsIff(count + 2);
  }

  lemma NineDigitsIff(n: nat)
    ensures n <= 999999999 <==> |Dec(n)| <= 9
  {
    assert Pow10(9) == 1000000000;
    DecLength(n, 9);
  }

  lemma TenDigitsIff(n: nat)
    ensures n <= MAX_COUNT <==> |Dec(n)| <= 10
  {
    assert Pow10(10) == 10000000000;
    DecLength(n, 10);
  }

  lemma ElevenDigitsIff(n: nat)
    ensures n <= 99999999999 <==> |Dec(n)| <= 11
  {
    assert Pow10(11) == 100000000000;
    DecLength(n, 11);
  }
}
