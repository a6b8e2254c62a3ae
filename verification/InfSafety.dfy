/** Whatever has been written at any point of a run is right: it begins what the input expands to. */
module InfSafety {
  import opened Deflate
  import opened DeflateFacts
  import opened InfUtil
  import opened InfState
  import opened InfCodesSteps
  import opened ZLib

  lemma PartialAhead(st: Stream, m: CodesMode, mark: nat, pos: nat, hist: seq<byte>, c: Coding)
    requires pos <= End(st)
    ensures StepAhead(st, Partial(st, m, mark, pos, hist, c), 0, hist)
  {
    hide OneSymbol, LengthExtra, Distance, DistanceExtra, CopyMatch;
    match m
    case START => OneSymbolAhead(st, pos, hist, c);
    case LEN(_, _) => OneSymbolAhead(st, mark, hist, c);
    case LENEXT(len, get) => LengthExtraAhead(st, pos, hist, c, len, get);
    case DIST(len, _, _) => DistanceAhead(st, mark, hist, c, len);
    case DISTEXT(len, dist, get) => DistanceExtraAhead(st, pos, hist, len, dist, get);
    case COPY(len, dist) =>
      if 1 <= dist <= |hist| {
        CopyExtends(hist, len, dist);
      }
    case _ =>
  }

  lemma MeaningOutput(s: State)
    requires 0 <= Pos(s) <= End(Str(s)) && (s.mode == CODES ==> InSymbol(s))
    ensures Ahead(Str(s), Meaning(s), 0, s.hist)
  {
    hide Block, StoredHeader, Stored, Table, CodeLengthCode, LengthCodes, Go, Partial, Nl, Nd, Nc;
    var st := Str(s);
    match s.mode
    case TYPE => BlockAhead(st, Pos(s), s.hist);
    case LENS =>
      if Pos(s) % 8 == 0 {
        StoredHeaderAhead(st, Pos(s), s.hist, s.last);
      }
    case STORED(left) => StoredAhead(st, s.next_in, left, s.hist, s.last);
    case TABLE => TableAhead(st, Pos(s), s.hist, s.last);
    case BTREE(t, _) => CodeLengthCodeAhead(st, s.mark, s.hist, s.last, Nl(t), Nd(t), Nc(t));
    case DTREE(t, i, _) =>
      if LengthsTo(s.blens, i) {
        LengthCodesAhead(st, Pos(s), s.hist, s.last, Nl(t), Nd(t), s.bl, Known(s.blens, i));
      }
    case CODES =>
      PartialAhead(st, s.cmode, s.mark, Pos(s), s.hist, s.coding);
      GoAhead(st, s.symbol, 0, s.hist, s.coding);
    case DRY =>
    case DONE =>
    case BAD =>
  }

  lemma CodesIn(s: State)
    requires Valid(s) && s.mode == CODES
    ensures InSymbol(s)
  {
    hide WindowOK, TreesOK, CodesOK, BufferOK, Meaning, InSymbol;
  }

  /** At every point between steps, what has been delivered begins what has been written, and that
      begins the outcome. */
  lemma NeverWrong(s: State)
    requires Valid(s)
    ensures s.out <= s.hist && s.goal != Undefined && Ahead(Str(s), s.goal, 0, s.hist)
    ensures Due(s) && s.window.Length > 0
  {
    hide ModeOK, BufferOK, Meaning;
    if s.mode == CODES {
      CodesIn(s);
    }
    MeaningOutput(s);
  }
}
