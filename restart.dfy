/**
 * The binary restart layout of the pair style as a stream of tagged tokens:
 * the settings header (cut_global, offset_flag, mix_flag, tail_flag), then
 * for every type pair i <= j in row order its setflag, followed by aterm,
 * bterm, cterm and cut only when the pair is set.  Reading past the end of
 * the stream, or reading a token of the wrong kind, fails.
 */
module Restart {
  import opened Wrappers

  /** One int or double written by fwrite. */
  datatype Token = IntToken(i: int) | RealToken(r: real)

  /** What write_restart_settings writes. */
  datatype Header = Header(cutGlobal: real, offsetFlag: int, mixFlag: int, tailFlag: int)

  /** One type pair's record: setflag 0 alone, or a non-zero setflag and the four values. */
  datatype PairRecord = Unset | Set(flag: int, aterm: real, bterm: real, cterm: real, cut: real)

  /** A set record carries a non-zero setflag. */
  predicate RecordOk(p: PairRecord) { p.Set? ==> p.flag != 0 }

  predicate RowOk(row: seq<PairRecord>) { forall m :: 0 <= m < |row| ==> RecordOk(row[m]) }

  /**
   * The records of rows k..n-1 of the upper triangle of an n-type table: row
   * number k + m holds the pairs (i, i), ..., (i, n) with i = k + m + 1.
   */
  predicate Triangle(rows: seq<seq<PairRecord>>, n: nat, k: nat)
  {
    k <= n && |rows| == n - k &&
    forall m :: 0 <= m < |rows| ==> |rows[m]| == n - k - m && RowOk(rows[m])
  }

  // ---------------------------------------------------------------------------
  // Writing

  function EncodeHeader(h: Header): seq<Token>
  {
    [RealToken(h.cutGlobal), IntToken(h.offsetFlag), IntToken(h.mixFlag), IntToken(h.tailFlag)]
  }

  function EncodeRecord(p: PairRecord): seq<Token>
  {
    match p
    case Unset => [IntToken(0)]
    case Set(flag, a, b, c, cut) => [IntToken(flag), RealToken(a), RealToken(b), RealToken(c), RealToken(cut)]
  }

  function EncodeRow(row: seq<PairRecord>): seq<Token>
  {
    if |row| == 0 then [] else EncodeRecord(row[0]) + EncodeRow(row[1..])
  }

  function EncodeRows(rows: seq<seq<PairRecord>>): seq<Token>
  {
    if |rows| == 0 then [] else EncodeRow(rows[0]) + EncodeRows(rows[1..])
  }

  /** write_restart: the settings header, then the upper triangle row by row. */
  function EncodeRestart(h: Header, rows: seq<seq<PairRecord>>): seq<Token>
  {
    EncodeHeader(h) + EncodeRows(rows)
  }

  /** No records and no rows encode to no tokens. */
  lemma EncodeEmpty()
    ensures EncodeRow([]) == [] && EncodeRows([]) == []
  {
  }

  /** Writing one more record at the end of a row appends its tokens. */
  lemma {:induction false} EncodeRowSnoc(row: seq<PairRecord>, p: PairRecord)
    ensures EncodeRow(row + [p]) == EncodeRow(row) + EncodeRecord(p)
  {
    if |row| == 0 {
      assert [p][1..] == [];
    } else {
      assert (row + [p])[1..] == row[1..] + [p];
      EncodeRowSnoc(row[1..], p);
    }
  }

  /** Writing one more row at the end appends its tokens. */
  lemma {:induction false} EncodeRowsSnoc(rows: seq<seq<PairRecord>>, row: seq<PairRecord>)
    ensures EncodeRows(rows + [row]) == EncodeRows(rows) + EncodeRow(row)
  {
    if |rows| == 0 {
      assert [row][1..] == [];
    } else {
      assert (rows + [row])[1..] == rows[1..] + [row];
      EncodeRowsSnoc(rows[1..], row);
    }
  }

  // ---------------------------------------------------------------------------
  // Reading

  /** sfread of one int. */
  function ReadInt(s: seq<Token>): (r: Result<(int, seq<Token>), PairError>)
    ensures r.Success? ==> |s| > 0 && r.value.1 == s[1..]
  {
    if |s| == 0 then Failure(UnexpectedEnd)
    else if s[0].IntToken? then Success((s[0].i, s[1..]))
    else Failure(WrongTokenKind)
  }

  /** sfread of one double. */
  function ReadReal(s: seq<Token>): (r: Result<(real, seq<Token>), PairError>)
    ensures r.Success? ==> |s| > 0 && r.value.1 == s[1..]
  {
    if |s| == 0 then Failure(UnexpectedEnd)
    else if s[0].RealToken? then Success((s[0].r, s[1..]))
    else Failure(WrongTokenKind)
  }

  /** read_restart_settings. */
  function DecodeHeader(s: seq<Token>): Result<(Header, seq<Token>), PairError>
  {
    var (cg, s1) :- ReadReal(s);
    var (of, s2) :- ReadInt(s1);
    var (mf, s3) :- ReadInt(s2);
    var (tf, s4) :- ReadInt(s3);
    Success((Header(cg, of, mf, tf), s4))
  }

  /** One pair of read_restart: setflag, then the four values only when it is non-zero. */
  function DecodeRecord(s: seq<Token>): Result<(PairRecord, seq<Token>), PairError>
  {
    var (flag, s1) :- ReadInt(s);
    if flag == 0 then Success((Unset, s1))
    else
      var (a, s2) :- ReadReal(s1);
      var (b, s3) :- ReadReal(s2);
      var (c, s4) :- ReadReal(s3);
      var (cut, s5) :- ReadReal(s4);
      Success((Set(flag, a, b, c, cut), s5))
  }

  /** The next len records. */
  function DecodeRow(s: seq<Token>, len: nat): Result<(seq<PairRecord>, seq<Token>), PairError>
  {
    if len == 0 then Success(([], s))
    else
      var (p, s1) :- DecodeRecord(s);
      var (tail, s2) :- DecodeRow(s1, len - 1);
      Success(([p] + tail, s2))
  }

  /** Rows k..n-1 of the upper triangle of an n-type table. */
  function DecodeRows(s: seq<Token>, n: nat, k: nat): Result<(seq<seq<PairRecord>>, seq<Token>), PairError>
    decreases n - k
  {
    if k >= n then Success(([], s))
    else
      var (row, s1) :- DecodeRow(s, n - k);
      var (tail, s2) :- DecodeRows(s1, n, k + 1);
      Success(([row] + tail, s2))
  }

  /** read_restart for an n-type table: the header, then the triangle, and what follows. */
  function DecodeRestart(s: seq<Token>, n: nat): (r: Result<(Header, seq<seq<PairRecord>>, seq<Token>), PairError>)
    ensures r.Success? ==> Triangle(r.value.1, n, 0)
  {
    var (h, s1) :- DecodeHeader(s);
    DecodeRowsShape(s1, n, 0);
    var (rows, s2) :- DecodeRows(s1, n, 0);
    Success((h, rows, s2))
  }

  /** A decoded row has the length asked for and well-formed records. */
  lemma {:induction false} DecodeRowShape(s: seq<Token>, len: nat)
    ensures DecodeRow(s, len).Success? ==> |DecodeRow(s, len).value.0| == len && RowOk(DecodeRow(s, len).value.0)
  {
    if len > 0 && DecodeRow(s, len).Success? {
      var (p, s1) := DecodeRecord(s).value;
      DecodeRowShape(s1, len - 1);
      var tail := DecodeRow(s1, len - 1).value.0;
      assert DecodeRow(s, len).value.0 == [p] + tail;
      assert RowOk([p] + tail) by {
        forall m | 0 <= m < |[p] + tail| ensures RecordOk(([p] + tail)[m]) {
          if m > 0 {
            assert ([p] + tail)[m] == tail[m - 1];
          }
        }
      }
    }
  }

  /** The decoded rows k..n-1 have the triangle's shape. */
  lemma {:induction false} DecodeRowsShape(s: seq<Token>, n: nat, k: nat)
    requires k <= n
    ensures DecodeRows(s, n, k).Success? ==> Triangle(DecodeRows(s, n, k).value.0, n, k)
    decreases n - k
  {
    if k < n && DecodeRows(s, n, k).Success? {
      DecodeRowShape(s, n - k);
      var (row, s1) := DecodeRow(s, n - k).value;
      DecodeRowsShape(s1, n, k + 1);
      var tail := DecodeRows(s1, n, k + 1).value.0;
      var rows := DecodeRows(s, n, k).value.0;
      assert rows == [row] + tail;
      forall m | 0 <= m < |rows| ensures |rows[m]| == n - k - m && RowOk(rows[m]) {
        if m > 0 {
          assert rows[m] == tail[m - 1];
        }
      }
    }
  }

  // ---------------------------------------------------------------------------
  // Reading step by step

  /** What is left to decode, with the items decoded so far put in front. */
  function Glue<T>(done: seq<T>, r: Result<(seq<T>, seq<Token>), PairError>): (g: Result<(seq<T>, seq<Token>), PairError>)
    ensures g.Success? <==> r.Success?
    ensures r.Failure? ==> g.error == r.error
    ensures r.Success? ==> g.value == (done + r.value.0, r.value.1)
  {
    match r
    case Success((items, rest)) => Success((done + items, rest))
    case Failure(e) => Failure(e)
  }

  lemma GlueNothing<T>(r: Result<(seq<T>, seq<Token>), PairError>)
    ensures Glue([], r) == r
  {
    if r.Success? {
      assert [] + r.value.0 == r.value.0;
    }
  }

  lemma GlueGlue<T>(done: seq<T>, x: T, r: Result<(seq<T>, seq<Token>), PairError>)
    ensures Glue(done, Glue([x], r)) == Glue(done + [x], r)
  {
    if r.Success? {
      assert done + ([x] + r.value.0) == done + [x] + r.value.0;
    }
  }

  /** A row of length zero and the rows past the last one read nothing. */
  lemma DecodeEmpty(s: seq<Token>, n: nat)
    ensures DecodeRow(s, 0) == Success(([], s))
    ensures DecodeRows(s, n, n) == Success(([], s))
  {
  }

  /** A row is its first record followed by the rest of the row. */
  lemma DecodeRowStep(s: seq<Token>, len: nat)
    requires len > 0
    ensures DecodeRecord(s).Failure? ==> DecodeRow(s, len) == Failure(DecodeRecord(s).error)
    ensures DecodeRecord(s).Success? ==>
              DecodeRow(s, len) == Glue([DecodeRecord(s).value.0], DecodeRow(DecodeRecord(s).value.1, len - 1))
  {
  }

  /** The rows from k on are row k followed by the rows from k + 1 on. */
  lemma DecodeRowsStep(s: seq<Token>, n: nat, k: nat)
    requires k < n
    ensures DecodeRow(s, n - k).Failure? ==> DecodeRows(s, n, k) == Failure(DecodeRow(s, n - k).error)
    ensures DecodeRow(s, n - k).Success? ==>
              DecodeRows(s, n, k) == Glue([DecodeRow(s, n - k).value.0], DecodeRows(DecodeRow(s, n - k).value.1, n, k + 1))
  {
  }

  /** Reading row k on from a point reached by reading rows 0..k-1 as done. */
  lemma ReadRowsAdvance(s: seq<Token>, n: nat, k: nat, done: seq<seq<PairRecord>>, t: seq<Token>)
    requires k < n
    requires DecodeRows(s, n, 0) == Glue(done, DecodeRows(t, n, k))
    ensures DecodeRow(t, n - k).Failure? ==> DecodeRows(s, n, 0) == Failure(DecodeRow(t, n - k).error)
    ensures DecodeRow(t, n - k).Success? ==>
              DecodeRows(s, n, 0) == Glue(done + [DecodeRow(t, n - k).value.0], DecodeRows(DecodeRow(t, n - k).value.1, n, k + 1))
  {
    DecodeRowsStep(t, n, k);
    if DecodeRow(t, n - k).Success? {
      GlueGlue(done, DecodeRow(t, n - k).value.0, DecodeRows(DecodeRow(t, n - k).value.1, n, k + 1));
    }
  }

  /** After the header, read_restart succeeds or fails as reading the triangle does. */
  lemma RestartAfterHeader(s: seq<Token>, n: nat, h: Header, s1: seq<Token>)
    requires DecodeHeader(s) == Success((h, s1))
    ensures DecodeRows(s1, n, 0).Failure? ==> DecodeRestart(s, n) == Failure(DecodeRows(s1, n, 0).error)
    ensures DecodeRows(s1, n, 0).Success? ==>
              DecodeRestart(s, n) == Success((h, DecodeRows(s1, n, 0).value.0, DecodeRows(s1, n, 0).value.1))
  {
  }

  /** A decoded record is well formed. */
  lemma DecodedRecordOk(s: seq<Token>)
    requires DecodeRecord(s).Success?
    ensures RecordOk(DecodeRecord(s).value.0)
  {
  }

  // ---------------------------------------------------------------------------
  // Round trip

  lemma HeaderRoundTrip(h: Header, t: seq<Token>)
    ensures DecodeHeader(EncodeHeader(h) + t) == Success((h, t))
  {
    var s := EncodeHeader(h) + t;
    assert s[1..][1..][1..][1..] == t;
  }

  lemma RecordRoundTrip(p: PairRecord, t: seq<Token>)
    requires RecordOk(p)
    ensures DecodeRecord(EncodeRecord(p) + t) == Success((p, t))
  {
    var s := EncodeRecord(p) + t;
    if p.Set? {
      assert s[1..][1..][1..][1..][1..] == t;
    } else {
      assert s[1..] == t;
    }
  }

  lemma {:induction false} RowRoundTrip(row: seq<PairRecord>, t: seq<Token>)
    requires RowOk(row)
    ensures DecodeRow(EncodeRow(row) + t, |row|) == Success((row, t))
  {
    if |row| > 0 {
      var rest := EncodeRow(row[1..]) + t;
      assert EncodeRow(row) + t == EncodeRecord(row[0]) + rest;
      RecordRoundTrip(row[0], rest);
      assert RowOk(row[1..]);
      RowRoundTrip(row[1..], t);
      assert [row[0]] + row[1..] == row;
    } else {
      assert row == [];
      assert EncodeRow(row) + t == t;
      assert DecodeRow(t, 0) == Success(([], t));
    }
  }

  lemma {:induction false} RowsRoundTrip(rows: seq<seq<PairRecord>>, n: nat, k: nat, t: seq<Token>)
    requires Triangle(rows, n, k)
    ensures DecodeRows(EncodeRows(rows) + t, n, k) == Success((rows, t))
    decreases n - k
  {
    if k < n {
      var rest := EncodeRows(rows[1..]) + t;
      assert EncodeRows(rows) + t == EncodeRow(rows[0]) + rest;
      RowRoundTrip(rows[0], rest);
      assert Triangle(rows[1..], n, k + 1) by {
        forall m | 0 <= m < |rows[1..]|
          ensures |rows[1..][m]| == n - (k + 1) - m && RowOk(rows[1..][m])
        {
          assert rows[1..][m] == rows[m + 1];
        }
      }
      RowsRoundTrip(rows[1..], n, k + 1, t);
      assert [rows[0]] + rows[1..] == rows;
    } else {
      assert rows == [];
      assert EncodeRows(rows) + t == t;
    }
  }

  /**
   * read_restart of what write_restart wrote gives back the header and every
   * record of the triangle, and leaves whatever followed in the stream.
   */
  lemma RestartRoundTrip(h: Header, rows: seq<seq<PairRecord>>, n: nat, t: seq<Token>)
    requires Triangle(rows, n, 0)
    ensures DecodeRestart(EncodeRestart(h, rows) + t, n) == Success((h, rows, t))
  {
    assert EncodeRestart(h, rows) + t == EncodeHeader(h) + (EncodeRows(rows) + t);
    HeaderRoundTrip(h, EncodeRows(rows) + t);
    RowsRoundTrip(rows, n, 0, t);
  }

  // ---------------------------------------------------------------------------
  // Truncation

  lemma HeaderTruncated(h: Header, k: nat)
    requires k < |EncodeHeader(h)|
    ensures DecodeHeader(EncodeHeader(h)[..k]).Failure?
  {
  }

  lemma RecordTruncated(p: PairRecord, k: nat)
    requires RecordOk(p) && k < |EncodeRecord(p)|
    ensures DecodeRecord(EncodeRecord(p)[..k]).Failure?
  {
  }

  lemma {:induction false} RowTruncated(row: seq<PairRecord>, k: nat)
    requires RowOk(row) && k < |EncodeRow(row)|
    ensures DecodeRow(EncodeRow(row)[..k], |row|).Failure?
  {
    var e := EncodeRecord(row[0]);
    var tail := EncodeRow(row[1..]);
    assert EncodeRow(row) == e + tail;
    if k < |e| {
      assert EncodeRow(row)[..k] == e[..k];
      RecordTruncated(row[0], k);
    } else {
      assert EncodeRow(row)[..k] == e + tail[..k - |e|];
      RecordRoundTrip(row[0], tail[..k - |e|]);
      assert RowOk(row[1..]);
      RowTruncated(row[1..], k - |e|);
    }
  }

  lemma {:induction false} RowsTruncated(rows: seq<seq<PairRecord>>, n: nat, k: nat, m: nat)
    requires Triangle(rows, n, k) && m < |EncodeRows(rows)|
    ensures DecodeRows(EncodeRows(rows)[..m], n, k).Failure?
    decreases n - k
  {
    var e := EncodeRow(rows[0]);
    var tail := EncodeRows(rows[1..]);
    assert EncodeRows(rows) == e + tail;
    if m < |e| {
      assert EncodeRows(rows)[..m] == e[..m];
      RowTruncated(rows[0], m);
    } else {
      assert EncodeRows(rows)[..m] == e + tail[..m - |e|];
      RowRoundTrip(rows[0], tail[..m - |e|]);
      assert Triangle(rows[1..], n, k + 1) by {
        forall q | 0 <= q < |rows[1..]|
          ensures |rows[1..][q]| == n - (k + 1) - q && RowOk(rows[1..][q])
        {
          assert rows[1..][q] == rows[q + 1];
        }
      }
      RowsTruncated(rows[1..], n, k + 1, m - |e|);
    }
  }

  /** Every strict prefix of a restart stream fails to read back. */
  lemma RestartTruncated(h: Header, rows: seq<seq<PairRecord>>, n: nat, m: nat)
    requires Triangle(rows, n, 0) && m < |EncodeRestart(h, rows)|
    ensures DecodeRestart(EncodeRestart(h, rows)[..m], n).Failure?
  {
    var e := EncodeHeader(h);
    var body := EncodeRows(rows);
    if m < |e| {
      assert EncodeRestart(h, rows)[..m] == e[..m];
      HeaderTruncated(h, m);
    } else {
      assert EncodeRestart(h, rows)[..m] == e + body[..m - |e|];
      HeaderRoundTrip(h, body[..m - |e|]);
      RowsTruncated(rows, n, 0, m - |e|);
    }
  }
}
