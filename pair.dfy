/**
 * The pair style object: its coefficient table, global settings and rRESPA
 * cutoffs, and the routines that update them in place (allocate, settings,
 * coeff, init_style, init_one, read_restart), read them (write_restart,
 * extract), or use them to add pair forces to the force array (compute,
 * compute_inner, compute_middle, compute_outer).
 */
module Pair {
  import opened Wrappers
  import opened Kernel
  import opened Coefficients
  import opened Accumulate
  import opened Restart
  import opened Sweep

  function Max(a: int, b: int): int { if a < b then b else a }

  /** The cells coeff writes: ilo <= i <= ihi and MAX(jlo, i) <= j <= jhi. */
  predicate Selected(ilo: int, ihi: int, jlo: int, jhi: int, i: int, j: int)
  {
    ilo <= i <= ihi && Max(jlo, i) <= j <= jhi
  }

  /** Whether coeff's range holds any cell at all (its count ends up non-zero). */
  predicate AnySelected(ilo: int, ihi: int, jlo: int, jhi: int)
  {
    ilo <= ihi && Max(jlo, ilo) <= jhi
  }

  /** coeff's range holds a cell exactly when its first row does. */
  lemma SelectionNonEmpty(ilo: int, ihi: int, jlo: int, jhi: int)
    ensures AnySelected(ilo, ihi, jlo, jhi) <==> exists i, j :: Selected(ilo, ihi, jlo, jhi, i, j)
  {
    if AnySelected(ilo, ihi, jlo, jhi) {
      assert Selected(ilo, ihi, jlo, jhi, ilo, Max(jlo, ilo));
    }
  }

  /** cut_one: the sixth argument when present, cut_global otherwise. */
  function CutOne(values: seq<real>, cutGlobal: real): real
    requires |values| == 3 || |values| == 4
  {
    if |values| == 4 then values[3] else cutGlobal
  }

  /** The neighbor list init_style requests. */
  datatype ListStyle = Default | RespaInOut | RespaAll

  /**
   * init_style's request: the inner/outer or the full rRESPA list when the run
   * integrates with rRESPA and has an inner or a middle level, the default
   * list otherwise.
   */
  function RequestedList(whichflag: int, respa: bool, levelInner: int, levelMiddle: int): (s: ListStyle)
    ensures s == RespaAll <==> whichflag == 1 && respa && levelMiddle >= 0
    ensures s == RespaInOut <==> whichflag == 1 && respa && levelInner >= 0 && levelMiddle < 0
    ensures s == Default <==> !(whichflag == 1 && respa) || (levelInner < 0 && levelMiddle < 0)
  {
    if whichflag == 1 && respa then
      if levelMiddle >= 0 then RespaAll
      else if levelInner >= 0 then RespaInOut
      else Default
    else Default
  }

  /** The restart record of a cell: its setflag, and its four values when it is set. */
  function RecordOf(e: Entry): (p: PairRecord)
    ensures RecordOk(p)
    ensures p.Unset? <==> e.setflag == 0
    ensures p.Set? ==> p == Set(e.setflag, e.aterm, e.bterm, e.cterm, e.cut)
  {
    if e.setflag == 0 then Unset else Set(e.setflag, e.aterm, e.bterm, e.cterm, e.cut)
  }

  /** What read_restart stores into a cell for one record: setflag, and the four values when set. */
  function Store(e: Entry, p: PairRecord): (r: Entry)
    ensures r.derived == e.derived
  {
    match p
    case Unset => e.(setflag := 0)
    case Set(flag, a, b, c, cut) => e.(setflag := flag, aterm := a, bterm := b, cterm := c, cut := cut)
  }

  /** Storing a well-formed record and taking the record of the cell gives the record back. */
  lemma StoreThenRecord(e: Entry, p: PairRecord)
    requires RecordOk(p)
    ensures RecordOf(Store(e, p)) == p
  {
  }

  /** The tokens write_restart emits for one cell. */
  lemma RecordTokens(e: Entry)
    ensures EncodeRecord(RecordOf(e)) ==
              [IntToken(e.setflag)] + if e.setflag != 0 then [RealToken(e.aterm), RealToken(e.bterm), RealToken(e.cterm), RealToken(e.cut)] else []
  {
  }

  /** The tokens of one more cell, appended after those already written. */
  lemma WriteStep(before: seq<Token>, after: seq<Token>, e: Entry, written: seq<Token>, row: seq<Token>)
    requires before == written + row
    requires after == before + [IntToken(e.setflag)] + if e.setflag != 0 then [RealToken(e.aterm), RealToken(e.bterm), RealToken(e.cterm), RealToken(e.cut)] else []
    ensures after == written + (row + EncodeRecord(RecordOf(e)))
  {
    RecordTokens(e);
  }

  /** Writing one more whole row extends what was written for the rows before it. */
  lemma RowsSnoc(header: seq<Token>, rows: seq<seq<PairRecord>>, i: int, out: seq<Token>, tokens: seq<Token>)
    requires 1 <= i <= |rows|
    requires out == header + EncodeRows(rows[..i - 1]) && tokens == EncodeRow(rows[i - 1])
    ensures out + tokens == header + EncodeRows(rows[..i])
  {
    hide *;
    assert rows[..i] == rows[..i - 1] + [rows[i - 1]];
    EncodeRowsSnoc(rows[..i - 1], rows[i - 1]);
  }

  class PairLJETEN {
    /** atom->ntypes: the table has rows and columns 0..ntypes, of which 1..ntypes are used. */
    const ntypes: nat
    var isAllocated: bool
    var table: array2<Entry>
    var cutGlobal: real
    var offsetFlag: int
    var mixFlag: int
    var tailFlag: int
    /** cut_respa, or None while it is nullptr. */
    var cutRespa: Option<seq<real>>

    ghost predicate Valid()
      reads this
    {
      (isAllocated ==> table.Length0 == ntypes + 1 && table.Length1 == ntypes + 1) &&
      (cutRespa.Some? ==> |cutRespa.value| == 4)
    }

    /** An allocated table has rows and columns 0..ntypes. */
    lemma TableShape()
      requires Valid() && isAllocated
      ensures table.Length0 == ntypes + 1 && table.Length1 == ntypes + 1
    {
    }

    predicate InRange(i: int, j: int)
    {
      0 <= i <= ntypes && 0 <= j <= ntypes
    }

    constructor (n: nat)
      ensures ntypes == n && !isAllocated && cutRespa == None
      ensures cutGlobal == 0.0 && offsetFlag == 0 && mixFlag == 0 && tailFlag == 0
      ensures Valid()
    {
      ntypes := n;
      isAllocated := false;
      table := new Entry[0, 0];
      cutGlobal := 0.0;
      offsetFlag := 0;
      mixFlag := 0;
      tailFlag := 0;
      cutRespa := None;
    }

    /** allocate: a fresh (ntypes+1) x (ntypes+1) table with every setflag cleared. */
    method Allocate()
      requires Valid()
      modifies this
      ensures Valid() && isAllocated && fresh(table)
      ensures forall i, j :: InRange(i, j) ==> table[i, j] == Blank
      ensures forall i, j :: 1 <= i <= j <= ntypes ==> table[i, j].setflag == 0
      ensures cutGlobal == old(cutGlobal) && offsetFlag == old(offsetFlag) && mixFlag == old(mixFlag)
      ensures tailFlag == old(tailFlag) && cutRespa == old(cutRespa)
    {
      isAllocated := true;
      table := new Entry[ntypes + 1, ntypes + 1]((i, j) => Blank);
    }

    /**
     * settings: exactly one argument, the global cutoff; every set pair of the
     * upper triangle takes it as its cutoff, nothing else changes.
     */
    method Settings(args: seq<real>) returns (r: Result<(), PairError>)
      requires Valid()
      modifies this, table
      ensures Valid()
      ensures |args| != 1 ==> r == Failure(IllegalPairStyle) && unchanged(this) && unchanged(table)
      ensures |args| == 1 ==>
                r == Success(()) && cutGlobal == args[0] && table == old(table) && isAllocated == old(isAllocated) &&
                offsetFlag == old(offsetFlag) && mixFlag == old(mixFlag) && tailFlag == old(tailFlag) &&
                cutRespa == old(cutRespa)
      ensures |args| == 1 && !isAllocated ==> unchanged(table)
      ensures |args| == 1 && isAllocated ==>
                forall i, j :: InRange(i, j) ==>
                  table[i, j] == if 1 <= i <= j then ResetCut(old(table[i, j]), args[0]) else old(table[i, j])
    {
      if |args| != 1 {
        return Failure(IllegalPairStyle);
      }
      cutGlobal := args[0];
      if isAllocated {
        var i := 1;
        while i <= ntypes
          invariant 1 <= i <= ntypes + 1
          invariant cutGlobal == args[0] && table == old(table) && isAllocated && Valid()
          invariant offsetFlag == old(offsetFlag) && mixFlag == old(mixFlag) && tailFlag == old(tailFlag)
          invariant cutRespa == old(cutRespa)
          invariant forall p, q :: InRange(p, q) ==>
                      table[p, q] == if 1 <= p <= q && p < i then ResetCut(old(table[p, q]), args[0]) else old(table[p, q])
        {
          var j := i;
          while j <= ntypes
            invariant i <= j <= ntypes + 1
            invariant cutGlobal == args[0] && table == old(table) && isAllocated && Valid()
            invariant offsetFlag == old(offsetFlag) && mixFlag == old(mixFlag) && tailFlag == old(tailFlag)
            invariant cutRespa == old(cutRespa)
            invariant forall p, q :: InRange(p, q) ==>
                        table[p, q] == if 1 <= p <= q && (p < i || (p == i && q < j)) then ResetCut(old(table[p, q]), args[0])
                                       else old(table[p, q])
          {
            if table[i, j].setflag != 0 {
              table[i, j] := table[i, j].(cut := cutGlobal);
            }
            j := j + 1;
          }
          i := i + 1;
        }
      }
      r := Success(());
    }

    /**
     * coeff with the type ranges ilo..ihi and jlo..jhi already parsed and
     * checked against 1..ntypes, and the numeric arguments aterm, bterm, cterm
     * and optionally cut.  A wrong argument count fails before anything is
     * touched; otherwise the table is allocated if need be, every selected
     * cell is written, and the call fails when no cell was selected.
     */
    method Coeff(ilo: int, ihi: int, jlo: int, jhi: int, values: seq<real>) returns (r: Result<(), PairError>)
      requires Valid()
      requires 1 <= ilo && ihi <= ntypes && 1 <= jlo && jhi <= ntypes
      modifies this, table
      ensures Valid()
      ensures |values| != 3 && |values| != 4 ==> r == Failure(IncorrectCoeffArgs) && unchanged(this) && unchanged(table)
      ensures |values| == 3 || |values| == 4 ==>
                isAllocated && cutGlobal == old(cutGlobal) && offsetFlag == old(offsetFlag) && mixFlag == old(mixFlag) &&
                tailFlag == old(tailFlag) && cutRespa == old(cutRespa) &&
                (old(isAllocated) ==> table == old(table)) && (!old(isAllocated) ==> fresh(table)) &&
                r == if AnySelected(ilo, ihi, jlo, jhi) then Success(()) else Failure(IncorrectCoeffArgs)
      ensures (|values| == 3 || |values| == 4) && old(isAllocated) ==>
                forall i, j :: InRange(i, j) ==>
                  table[i, j] == if Selected(ilo, ihi, jlo, jhi, i, j)
                                 then Assign(old(table[i, j]), values[0], values[1], values[2], CutOne(values, old(cutGlobal)))
                                 else old(table[i, j])
      ensures (|values| == 3 || |values| == 4) && !old(isAllocated) ==>
                forall i, j :: InRange(i, j) ==>
                  table[i, j] == if Selected(ilo, ihi, jlo, jhi, i, j)
                                 then Assign(Blank, values[0], values[1], values[2], CutOne(values, old(cutGlobal)))
                                 else Blank
    {
      if |values| != 3 && |values| != 4 {
        return Failure(IncorrectCoeffArgs);
      }
      if !isAllocated {
        Allocate();
      }
      var a, b, c := values[0], values[1], values[2];
      var cutOne := cutGlobal;
      if |values| == 4 {
        cutOne := values[3];
      }
      var count := 0;
      var i := ilo;
      while i <= ihi
        invariant ilo <= i && (i <= ihi + 1 || i == ilo)
        invariant isAllocated && Valid() && cutGlobal == old(cutGlobal) && offsetFlag == old(offsetFlag)
        invariant mixFlag == old(mixFlag) && tailFlag == old(tailFlag) && cutRespa == old(cutRespa)
        invariant old(isAllocated) ==> table == old(table)
        invariant !old(isAllocated) ==> fresh(table)
        invariant count == 0 <==> !(i > ilo && AnySelected(ilo, ihi, jlo, jhi))
        invariant forall p, q :: InRange(p, q) ==>
                    table[p, q] == (if Selected(ilo, ihi, jlo, jhi, p, q) && p < i
                                    then Assign(if old(isAllocated) then old(table[p, q]) else Blank, a, b, c, cutOne)
                                    else if old(isAllocated) then old(table[p, q]) else Blank)
      {
        var j := Max(jlo, i);
        while j <= jhi
          invariant Max(jlo, i) <= j && (j <= jhi + 1 || j == Max(jlo, i))
          invariant isAllocated && Valid() && cutGlobal == old(cutGlobal) && offsetFlag == old(offsetFlag)
          invariant mixFlag == old(mixFlag) && tailFlag == old(tailFlag) && cutRespa == old(cutRespa)
          invariant old(isAllocated) ==> table == old(table)
          invariant !old(isAllocated) ==> fresh(table)
          invariant count == 0 <==> !((i > ilo || j > Max(jlo, i)) && AnySelected(ilo, ihi, jlo, jhi))
          invariant forall p, q :: InRange(p, q) ==>
                      table[p, q] == (if Selected(ilo, ihi, jlo, jhi, p, q) && (p < i || (p == i && q < j))
                                      then Assign(if old(isAllocated) then old(table[p, q]) else Blank, a, b, c, cutOne)
                                      else if old(isAllocated) then old(table[p, q]) else Blank)
        {
          table[i, j] := Assign(table[i, j], a, b, c, cutOne);
          count := count + 1;
          j := j + 1;
        }
        i := i + 1;
      }
      if count == 0 {
        return Failure(IncorrectCoeffArgs);
      }
      r := Success(());
    }

    /**
     * init_style: records the rRESPA cutoffs when the run integrates with
     * rRESPA and has an inner level, clears them otherwise, and returns the
     * neighbor list it would request.
     */
    method InitStyle(whichflag: int, respa: bool, levelInner: int, levelMiddle: int, cutoff: seq<real>)
      returns (style: ListStyle)
      requires Valid() && |cutoff| == 4
      modifies this
      ensures Valid()
      ensures style == RequestedList(whichflag, respa, levelInner, levelMiddle)
      ensures cutRespa == if respa && levelInner >= 0 then Some(cutoff) else None
      ensures isAllocated == old(isAllocated) && table == old(table) && cutGlobal == old(cutGlobal)
      ensures offsetFlag == old(offsetFlag) && mixFlag == old(mixFlag) && tailFlag == old(tailFlag)
    {
      style := Default;
      if whichflag == 1 && respa {
        if levelInner >= 0 {
          style := RespaInOut;
        }
        if levelMiddle >= 0 {
          style := RespaAll;
        }
      }
      if respa && levelInner >= 0 {
        cutRespa := Some(cutoff);
      } else {
        cutRespa := None;
      }
    }

    /**
     * init_one(i, j): finalizes cell [i][j] (an unset cell gets zero
     * coefficients and the mixed cutoff of [i][i] and [j][j]), copies only its
     * derived constants to [j][i], and returns its cutoff, failing when that
     * cutoff is below the innermost rRESPA cutoff cut_respa[3].
     */
    method InitOne(i: int, j: int, mix: (real, real) -> real) returns (r: Result<real, PairError>)
      requires Valid() && isAllocated
      requires 1 <= i <= ntypes && 1 <= j <= ntypes
      modifies table
      ensures table[i, j] == Finalize(old(table[i, j]), mix(old(table[i, i].cut), old(table[j, j].cut)))
      ensures i != j ==> table[j, i] == Mirror(old(table[j, i]), table[i, j])
      ensures forall p, q :: InRange(p, q) && !(p == i && q == j) && !(p == j && q == i) ==> table[p, q] == old(table[p, q])
      ensures r == if cutRespa.Some? && table[i, j].cut < cutRespa.value[3] then Failure(RespaCutoffTooSmall)
                   else Success(table[i, j].cut)
    {
      if table[i, j].setflag == 0 {
        var mixed := mix(table[i, i].cut, table[j, j].cut);
        table[i, j] := table[i, j].(aterm := 0.0, bterm := 0.0, cterm := 0.0, cut := mixed);
      }
      var e := table[i, j];
      table[i, j] := e.(derived := Derived(12.0 * e.aterm, 10.0 * e.bterm, 6.0 * e.cterm, e.aterm, e.bterm, e.cterm, 0.0));
      table[j, i] := table[j, i].(derived := table[i, j].derived);
      if cutRespa.Some? && table[i, j].cut < cutRespa.value[3] {
        return Failure(RespaCutoffTooSmall);
      }
      r := Success(table[i, j].cut);
    }

    /**
     * init_one called twice on the same pair: the second call changes nothing
     * and returns what the first returned, unless the pair is an unset
     * diagonal cell, whose mixed cutoff would be mixed again.
     */
    method InitOneTwice(i: int, j: int, mix: (real, real) -> real) returns (r1: Result<real, PairError>, r2: Result<real, PairError>)
      requires Valid() && isAllocated
      requires 1 <= i <= ntypes && 1 <= j <= ntypes
      requires i != j || table[i, i].setflag != 0
      modifies table
      ensures r1 == r2
      ensures table[i, j] == Finalize(old(table[i, j]), mix(old(table[i, i].cut), old(table[j, j].cut)))
      ensures i != j ==> table[j, i] == Mirror(old(table[j, i]), table[i, j])
      ensures forall p, q :: InRange(p, q) && !(p == i && q == j) && !(p == j && q == i) ==> table[p, q] == old(table[p, q])
    {
      r1 := InitOne(i, j, mix);
      ghost var first := table[i, j];
      r2 := InitOne(i, j, mix);
      FinalizeIdempotent(old(table[i, j]), mix(old(table[i, i].cut), old(table[j, j].cut)));
      assert table[i, j] == first;
    }

    /** What write_restart_settings writes. */
    function HeaderOf(): Header
      reads this
    {
      Header(cutGlobal, offsetFlag, mixFlag, tailFlag)
    }

    /** The records of cells (i, j), ..., (i, ntypes). */
    function RowFrom(i: int, j: int): (row: seq<PairRecord>)
      reads this, table
      requires Valid() && isAllocated && 1 <= i <= ntypes && i <= j <= ntypes + 1
      ensures |row| == ntypes + 1 - j
      ensures forall m :: 0 <= m < |row| ==> row[m] == RecordOf(table[i, j + m])
      decreases ntypes + 1 - j
    {
      if j > ntypes then [] else [RecordOf(table[i, j])] + RowFrom(i, j + 1)
    }

    /** The rows i..ntypes of the upper triangle. */
    function RowsFrom(i: int): (rows: seq<seq<PairRecord>>)
      reads this, table
      requires Valid() && isAllocated && 1 <= i <= ntypes + 1
      ensures |rows| == ntypes + 1 - i
      ensures forall m :: 0 <= m < |rows| ==> rows[m] == RowFrom(i + m, i + m)
      decreases ntypes + 1 - i
    {
      if i > ntypes then [] else [RowFrom(i, i)] + RowsFrom(i + 1)
    }

    /** The upper triangle of the table as restart records, row by row. */
    function TableRows(): (rows: seq<seq<PairRecord>>)
      reads this, table
      requires Valid() && isAllocated
      ensures Triangle(rows, ntypes, 0)
      ensures forall i, j :: 1 <= i <= j <= ntypes ==> rows[i - 1][j - i] == RecordOf(table[i, j])
    {
      RowsFrom(1)
    }

    /** write_restart's inner loop: the records of row i, in column order. */
    method WriteRow(i: int) returns (out: seq<Token>)
      requires Valid() && isAllocated && 1 <= i <= ntypes
      ensures out == EncodeRow(RowFrom(i, i))
    {
      hide *;
      TableShape();
      EncodeEmpty();
      ghost var row := RowFrom(i, i);
      out := [];
      var j := i;
      while j <= ntypes
        invariant i <= j <= ntypes + 1
        invariant out == EncodeRow(row[..j - i])
      {
        ghost var before := out;
        var e := table[i, j];
        out := out + [IntToken(e.setflag)];
        if e.setflag != 0 {
          out := out + [RealToken(e.aterm), RealToken(e.bterm), RealToken(e.cterm), RealToken(e.cut)];
        }
        assert row[j - i] == RecordOf(e);
        WriteStep(before, out, e, [], before);
        assert row[..j + 1 - i] == row[..j - i] + [row[j - i]];
        EncodeRowSnoc(row[..j - i], row[j - i]);
        j := j + 1;
      }
      assert row[..ntypes + 1 - i] == row;
    }

    /**
     * write_restart: the settings header, then for every i <= j in row order
     * setflag and, for a set pair, aterm, bterm, cterm and cut.
     */
    method WriteRestart() returns (out: seq<Token>)
      requires Valid() && isAllocated
      ensures out == EncodeRestart(HeaderOf(), TableRows())
    {
      ghost var rows := RowsFrom(1);
      out := [RealToken(cutGlobal), IntToken(offsetFlag), IntToken(mixFlag), IntToken(tailFlag)];
      var i := 1;
      while i <= ntypes
        invariant 1 <= i <= ntypes + 1
        invariant out == EncodeHeader(HeaderOf()) + EncodeRows(rows[..i - 1])
      {
        var tokens := WriteRow(i);
        assert rows[i - 1] == RowFrom(i, i);
        RowsSnoc(EncodeHeader(HeaderOf()), rows, i, out, tokens);
        out := out + tokens;
        i := i + 1;
      }
      assert rows[..ntypes] == rows;
    }

    /** read_restart's inner loop: the records of row i, stored in columns i..ntypes. */
    method ReadRow(i: int, s: seq<Token>) returns (r: Result<seq<Token>, PairError>, ghost row: seq<PairRecord>)
      requires Valid() && isAllocated && 1 <= i <= ntypes
      modifies table
      ensures r.Failure? ==> DecodeRow(s, ntypes + 1 - i) == Failure(r.error)
      ensures r.Success? ==>
                DecodeRow(s, ntypes + 1 - i) == Success((row, r.value)) && |row| == ntypes + 1 - i &&
                forall q :: i <= q <= ntypes ==> RecordOf(table[i, q]) == row[q - i]
      ensures forall p, q :: 0 <= p <= ntypes && 0 <= q <= ntypes && p != i ==> table[p, q] == old(table[p, q])
      ensures forall q :: 0 <= q < i ==> table[i, q] == old(table[i, q])
      ensures forall q :: i <= q <= ntypes ==> table[i, q].derived == old(table[i, q].derived)
    {
      hide *;
      TableShape();
      ghost var cur: seq<PairRecord> := [];
      GlueNothing(DecodeRow(s, ntypes + 1 - i));
      var t := s;
      var j := i;
      while j <= ntypes
        invariant i <= j <= ntypes + 1 && |cur| == j - i
        invariant DecodeRow(s, ntypes + 1 - i) == Glue(cur, DecodeRow(t, ntypes + 1 - j))
        invariant forall q :: i <= q < j ==> RecordOf(table[i, q]) == cur[q - i]
        invariant forall p, q :: 0 <= p <= ntypes && 0 <= q <= ntypes && p != i ==> table[p, q] == old(table[p, q])
        invariant forall q :: 0 <= q < i ==> table[i, q] == old(table[i, q])
        invariant forall q :: i <= q <= ntypes ==> table[i, q].derived == old(table[i, q].derived)
      {
        var d := DecodeRecord(t);
        DecodeRowStep(t, ntypes + 1 - j);
        if d.Failure? {
          return Failure(d.error), cur;
        }
        var (rec, t1) := d.value;
        DecodedRecordOk(t);
        StoreThenRecord(table[i, j], rec);
        table[i, j] := Store(table[i, j], rec);
        GlueGlue(cur, rec, DecodeRow(t1, ntypes - j));
        cur := cur + [rec];
        t := t1;
        j := j + 1;
      }
      DecodeEmpty(t, 0);
      assert cur + [] == cur;
      r, row := Success(t), cur;
    }

    /**
     * read_restart: the settings header, a fresh table, then for every i <= j
     * in row order setflag and, when it is non-zero, the four values.  It
     * fails exactly when the pure decoder does, with the same error, and
     * otherwise holds what the decoder read and returns the unread rest.
     */
    method ReadRestart(s: seq<Token>) returns (r: Result<seq<Token>, PairError>)
      requires Valid()
      modifies this
      ensures Valid() && cutRespa == old(cutRespa)
      ensures r.Success? <==> DecodeRestart(s, ntypes).Success?
      ensures r.Failure? ==> r.error == DecodeRestart(s, ntypes).error
      ensures r.Success? ==>
                isAllocated && fresh(table) &&
                r.value == DecodeRestart(s, ntypes).value.2 &&
                HeaderOf() == DecodeRestart(s, ntypes).value.0 &&
                forall i, j :: 1 <= i <= j <= ntypes ==> RecordOf(table[i, j]) == DecodeRestart(s, ntypes).value.1[i - 1][j - i]
    {
      var hd := DecodeHeader(s);
      if hd.Failure? {
        return Failure(hd.error);
      }
      assert DecodeRestart(s, ntypes).Success? ==> DecodeHeader(s).Success?;
      var (h, s1) := hd.value;
      cutGlobal, offsetFlag, mixFlag, tailFlag := h.cutGlobal, h.offsetFlag, h.mixFlag, h.tailFlag;
      Allocate();
      var rr, rows := ReadRows(s1);
      RestartAfterHeader(s, ntypes, h, s1);
      if rr.Failure? {
        return Failure(rr.error);
      }
      r := Success(rr.value);
    }

    /** read_restart's outer loop: rows 1..ntypes of the upper triangle. */
    method ReadRows(s: seq<Token>) returns (r: Result<seq<Token>, PairError>, ghost rows: seq<seq<PairRecord>>)
      requires Valid() && isAllocated
      modifies table
      ensures r.Failure? ==> DecodeRows(s, ntypes, 0) == Failure(r.error)
      ensures r.Success? ==>
                DecodeRows(s, ntypes, 0) == Success((rows, r.value)) && |rows| == ntypes &&
                (forall p :: 0 <= p < ntypes ==> |rows[p]| == ntypes - p) &&
                forall p, q :: 1 <= p <= q <= ntypes ==> RecordOf(table[p, q]) == rows[p - 1][q - p]
    {
      hide *;
      TableShape();
      var t := s;
      ghost var done: seq<seq<PairRecord>> := [];
      GlueNothing(DecodeRows(s, ntypes, 0));
      var i := 1;
      while i <= ntypes
        invariant 1 <= i <= ntypes + 1 && |done| == i - 1
        invariant DecodeRows(s, ntypes, 0) == Glue(done, DecodeRows(t, ntypes, i - 1))
        invariant forall p :: 0 <= p < |done| ==> |done[p]| == ntypes - p
        invariant forall p, q :: 1 <= p < i && p <= q <= ntypes ==> RecordOf(table[p, q]) == done[p - 1][q - p]
      {
        ReadRowsAdvance(s, ntypes, i - 1, done, t);
        var rr, row := ReadRow(i, t);
        if rr.Failure? {
          return Failure(rr.error), done;
        }
        forall p, q | 1 <= p <= i && p <= q <= ntypes
          ensures RecordOf(table[p, q]) == (done + [row])[p - 1][q - p]
        {
          if p < i {
            assert (done + [row])[p - 1] == done[p - 1];
          }
        }
        done := done + [row];
        t := rr.value;
        i := i + 1;
      }
      DecodeEmpty(t, ntypes);
      assert done + [] == done;
      r, rows := Success(t), done;
    }

    /**
     * A restart written by src and read back by this object, of the same
     * ntypes, consumes the whole stream and reproduces src's settings and the
     * record of every cell of its upper triangle.
     */
    method RestoreFrom(src: PairLJETEN) returns (r: Result<seq<Token>, PairError>)
      requires Valid() && src.Valid() && src.isAllocated && src != this && src.ntypes == ntypes
      modifies this
      ensures r == Success([]) && isAllocated && Valid()
      ensures HeaderOf() == src.HeaderOf()
      ensures forall i, j :: 1 <= i <= j <= ntypes ==> RecordOf(table[i, j]) == RecordOf(src.table[i, j])
    {
      var stream := src.WriteRestart();
      ghost var rows := src.TableRows();
      RestartRoundTrip(src.HeaderOf(), rows, ntypes, []);
      assert stream + [] == stream;
      r := ReadRestart(stream);
    }

    /** cut_respa as a sequence, empty while it is nullptr. */
    function Shells(): seq<real>
      reads this
    {
      if cutRespa.Some? then cutRespa.value else []
    }

    /** coeffs holds the derived coefficients of the table, cell by cell. */
    ghost predicate Holds(coeffs: seq<seq<Derived>>)
      reads this, table
    {
      Valid() && isAllocated && |coeffs| == ntypes + 1 && Grid(coeffs) &&
      forall p, q :: 0 <= p <= ntypes && 0 <= q <= ntypes ==> coeffs[p][q] == table[p, q].derived
    }

    lemma HoldsShape(coeffs: seq<seq<Derived>>)
      requires Holds(coeffs)
      ensures |coeffs| == ntypes + 1
    {
    }

    /** The force update for atom i and one neighbor: the contribution PairContribution describes, applied to f. */
    method ComputePair(level: Level, f: array<Vec3>, x: seq<Vec3>, types: seq<nat>, nlocal: nat, newton: bool,
                       i: nat, nb: Neighbor, cutsq: (nat, nat) -> real, sqrt: real -> real,
                       ghost coeffs: seq<seq<Derived>>, ghost cr: seq<real>)
      requires Holds(coeffs) && cr == Shells() && Ready(level, coeffs, cr)
      requires f.Length == |x| && PairOk(x, types, ntypes, sqrt, i, nb.j)
      modifies f
      ensures f[..] == ApplyAll(old(f[..]), PairContribution(level, coeffs, cr, x, types, cutsq, sqrt, i, nb), newton, nlocal)
    {
      var j := nb.j;
      var del := Sub(x[i], x[j]);
      var rsq := NormSq(del);
      var itype, jtype := types[i], types[j];
      var p := LevelFpair(level, table[itype, jtype].derived, cutsq(itype, jtype), Shells(), rsq, sqrt(rsq), nb.factor);
      ghost var fs := f[..];
      if p.Some? {
        var fpair := p.value;
        f[i] := Add(f[i], Scale(del, fpair));
        if newton || j < nlocal {
          f[j] := Sub(f[j], Scale(del, fpair));
        }
        ApplyAllSnoc(fs, [], Contribution(i, j, del, fpair), newton, nlocal);
      }
    }

    /** The inner loop of the compute routines: atom i against each of its neighbors, in order. */
    method ComputeSite(level: Level, f: array<Vec3>, x: seq<Vec3>, types: seq<nat>, nlocal: nat, newton: bool,
                       i: nat, jlist: seq<Neighbor>, cutsq: (nat, nat) -> real, sqrt: real -> real,
                       ghost coeffs: seq<seq<Derived>>, ghost cr: seq<real>)
      requires Holds(coeffs) && cr == Shells() && Ready(level, coeffs, cr)
      requires f.Length == |x| && SiteOk(x, types, ntypes, sqrt, i, jlist)
      modifies f
      ensures f[..] == ApplyAll(old(f[..]), SiteContributions(level, coeffs, cr, x, types, cutsq, sqrt, i, jlist, |jlist|), newton, nlocal)
    {
      hide *;
      HoldsShape(coeffs);
      NoneYet(level, coeffs, cr, x, types, cutsq, sqrt, i, jlist, []);
      ApplyNone(f[..], newton, nlocal);
      var jj := 0;
      while jj < |jlist|
        invariant 0 <= jj <= |jlist|
        invariant f[..] == ApplyAll(old(f[..]), SiteContributions(level, coeffs, cr, x, types, cutsq, sqrt, i, jlist, jj), newton, nlocal)
      {
        ghost var done := SiteContributions(level, coeffs, cr, x, types, cutsq, sqrt, i, jlist, jj);
        SiteContributionsNext(level, coeffs, cr, x, types, cutsq, sqrt, i, jlist, jj);
        ghost var pc := PairContribution(level, coeffs, cr, x, types, cutsq, sqrt, i, jlist[jj]);
        ApplyAllAppend(old(f[..]), done, pc, newton, nlocal);
        ComputePair(level, f, x, types, nlocal, newton, i, jlist[jj], cutsq, sqrt, coeffs, cr);
        jj := jj + 1;
      }
    }

    /** One pass of the outer loop: atom list[ii] and its neighbors extend the applied contributions by one site. */
    method ComputeAtom(level: Level, f: array<Vec3>, x: seq<Vec3>, types: seq<nat>, nlocal: nat, newton: bool,
                       list: seq<Site>, ii: nat, cutsq: (nat, nat) -> real, sqrt: real -> real,
                       ghost coeffs: seq<seq<Derived>>, ghost cr: seq<real>, ghost f0: seq<Vec3>)
      requires Holds(coeffs) && cr == Shells() && Ready(level, coeffs, cr)
      requires f.Length == |x| == |f0| && ListOk(x, types, ntypes, sqrt, list) && ii < |list|
      requires f[..] == ApplyAll(f0, ListContributions(level, coeffs, cr, x, types, cutsq, sqrt, list, ii), newton, nlocal)
      modifies f
      ensures f[..] == ApplyAll(f0, ListContributions(level, coeffs, cr, x, types, cutsq, sqrt, list, ii + 1), newton, nlocal)
    {
      hide *;
      HoldsShape(coeffs);
      var site := list[ii];
      ListOkAt(x, types, ntypes, sqrt, list, ii);
      ComputeSite(level, f, x, types, nlocal, newton, site.i, site.neighbors, cutsq, sqrt, coeffs, cr);
      ListStep(level, coeffs, cr, x, types, cutsq, sqrt, list, ii, f0, old(f[..]), f[..], newton, nlocal);
    }

    /**
     * compute (level Full), compute_inner, compute_middle and compute_outer's
     * force part: for every atom of the list and every neighbor, the pair
     * inside the routine's window adds del fpair to f[i] and, with newton_pair
     * or a local j, subtracts it from f[j].  coeffs is the table's derived
     * coefficients as a value.  The force array ends up as the contributions
     * of the whole list applied in order, and with newton_pair the sum of all
     * forces is unchanged.
     */
    method Compute(level: Level, f: array<Vec3>, x: seq<Vec3>, types: seq<nat>, nlocal: nat, newton: bool,
                   list: seq<Site>, cutsq: (nat, nat) -> real, sqrt: real -> real, ghost coeffs: seq<seq<Derived>>)
      requires Holds(coeffs) && Ready(level, coeffs, Shells())
      requires f.Length == |x| && ListOk(x, types, ntypes, sqrt, list)
      modifies f
      ensures f[..] == ApplyAll(old(f[..]), ListContributions(level, coeffs, Shells(), x, types, cutsq, sqrt, list, |list|), newton, nlocal)
      ensures newton ==> Total(f[..]) == Total(old(f[..]))
    {
      hide *;
      ghost var cr := Shells();
      HoldsShape(coeffs);
      NoneYet(level, coeffs, cr, x, types, cutsq, sqrt, 0, [], list);
      ApplyNone(f[..], newton, nlocal);
      var ii := 0;
      while ii < |list|
        invariant 0 <= ii <= |list|
        invariant f[..] == ApplyAll(old(f[..]), ListContributions(level, coeffs, cr, x, types, cutsq, sqrt, list, ii), newton, nlocal)
      {
        ComputeAtom(level, f, x, types, nlocal, newton, list, ii, cutsq, sqrt, coeffs, cr, old(f[..]));
        ii := ii + 1;
      }
      NewtonConservesTotal(old(f[..]), ListContributions(level, coeffs, cr, x, types, cutsq, sqrt, list, |list|), nlocal);
    }

    /** extract: dimension 2 and the named coefficient array, if the name is one of them. */
    function ExtractAt(name: string, i: int, j: int): (r: (int, Option<real>))
      reads this, table
      requires Valid() && isAllocated && InRange(i, j)
      ensures r.0 == 2
      ensures r.1.Some? <==> Extract(name).1.Some?
      ensures Extract(name).1.Some? ==> r.1.value == Column(table[i, j], Extract(name).1.value)
    {
      var (dim, which) := Extract(name);
      (dim, if which.Some? then Some(Column(table[i, j], which.value)) else None)
    }
  }
}
