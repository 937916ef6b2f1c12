/** Construction of an eigensolver from its parameter block: the sanity checks of
    the EigenSolver and TRLM constructors, the deduction of the sort direction
    from the requested spectrum, and the factory `EigenSolver::create`.
    Every `errorQuda` of the constructors aborts construction; here it is a
    `Failure` carrying the reason. */
module Config {

  datatype Option<T> = None | Some(value: T)

  datatype Result<T, E> = Success(value: T) | Failure(error: E)

  /** First letter of a spectrum name: the smallest ('S') or the largest ('L') end. */
  datatype Side = Smallest | Largest

  /** Second letter of a spectrum name: real part ('R'), modulus ('M') or imaginary part ('I'). */
  datatype Part = RealPart | Modulus | ImaginaryPart

  /** The spectrum enumeration; `InvalidSpectrum` is any value the constructor's switch does not list. */
  datatype SpectrumType = Spectrum(side: Side, part: Part) | InvalidSpectrum

  /** The eigensolver enumeration; `InvalidEigType` is any value the factory's switch does not list. */
  datatype EigType = IrArnoldi | IrLanczos | TrLanczos | InvalidEigType

  /** The fields of the parameter block the core reads. */
  datatype EigParam = EigParam(
    eigType: EigType,
    spectrum: SpectrumType,
    nEv: int,
    nKr: int,
    nConv: int,
    tol: real,
    maxRestarts: int,
    usePolyAcc: bool,
    requireConvergence: bool)

  datatype ConfigError =
    | KrylovNotAboveSearch    // nKr <= nEv
    | ConvAboveSearch         // nEv < nConv
    | SearchNotPositive       // nEv == 0 (as written), nEv <= 0 (corrected)
    | KrylovNotPositive       // nKr == 0 (as written), nKr <= 0 (corrected)
    | ConvNotPositive         // nConv == 0 (as written), nConv <= 0 (corrected)
    | UnexpectedSpectrum      // the spectrum switch fell through
    | RestartBufferTooSmall   // nKr < nEv + 6
    | SpectrumNotReal         // TRLM accepts only LR and SR
    | NotImplemented          // IR Arnoldi and IR Lanczos
    | InvalidSolverType       // the factory switch fell through

  /** What a successfully constructed TRLM solver keeps from its parameters:
      `side` is the (possibly flipped) first letter of the spectrum string and
      `reverse` the sort direction used by `reorder` and the arrow eigensolve. */
  datatype Settings = Settings(
    nEv: int,
    nKr: int,
    nConv: int,
    tol: real,
    maxRestarts: int,
    side: Side,
    part: Part,
    reverse: bool,
    requireConvergence: bool)

  function Opposite(s: Side): Side {
    if s == Smallest then Largest else Smallest
  }

  /** The size checks of the EigenSolver constructor exactly as written: the
      three "== 0" tests let negative sizes through. */
  function SizeChecksAsWritten(nEv: int, nKr: int, nConv: int): (r: Option<ConfigError>)
    ensures r == None <==> nEv < nKr && nConv <= nEv && nEv != 0 && nKr != 0 && nConv != 0
    ensures nKr <= nEv ==> r == Some(KrylovNotAboveSearch)
    ensures nEv < nKr && nEv < nConv ==> r == Some(ConvAboveSearch)
  {
    if nKr <= nEv then Some(KrylovNotAboveSearch)
    else if nEv < nConv then Some(ConvAboveSearch)
    else if nEv == 0 then Some(SearchNotPositive)
    else if nKr == 0 then Some(KrylovNotPositive)
    else if nConv == 0 then Some(ConvNotPositive)
    else None
  }

  /** A configuration with a negative nConv passes every size check as
      written, and the TRLM restart-buffer check too. */
  lemma SizeChecksAsWrittenAdmitNegativeSizes()
    ensures SizeChecksAsWritten(4, 10, -4) == None
    ensures RestartBufferCheck(4, 10) == None
    ensures SizeChecks(4, 10, -4) == Some(ConvNotPositive)
  {
  }

  /** Every configuration with a negative nConv that the remaining checks accept
      is accepted by the size checks as written. */
  lemma {:induction false} SizeChecksAsWrittenIgnoreSign(nEv: int, nKr: int, nConv: int)
    requires nConv < 0 && nConv <= nEv < nKr && nEv != 0 && nKr != 0
    ensures SizeChecksAsWritten(nEv, nKr, nConv) == None
    ensures SizeChecks(nEv, nKr, nConv) != None
  {
  }

  /** The size checks with the evidently intended "<= 0" tests; the rest of the
      model uses these. */
  function SizeChecks(nEv: int, nKr: int, nConv: int): (r: Option<ConfigError>)
    ensures r == None <==> 0 < nConv <= nEv < nKr
    ensures nKr <= nEv ==> r == Some(KrylovNotAboveSearch)
    ensures nEv < nKr && nEv < nConv ==> r == Some(ConvAboveSearch)
    ensures SizeChecksAsWritten(nEv, nKr, nConv) != None ==> r != None
  {
    if nKr <= nEv then Some(KrylovNotAboveSearch)
    else if nEv < nConv then Some(ConvAboveSearch)
    else if nEv <= 0 then Some(SearchNotPositive)
    else if nKr <= 0 then Some(KrylovNotPositive)
    else if nConv <= 0 then Some(ConvNotPositive)
    else None
  }

  /** The sort direction and the spectrum letter actually used: without
      polynomial acceleration the largest end is found by reversing the sort;
      with it the Chebyshev filter inverts the spectrum, so the letter flips and
      the sort is always reversed. */
  function DeduceOrdering(side: Side, usePolyAcc: bool): (r: (Side, bool))
    ensures r.1 <==> usePolyAcc || side == Largest
    ensures usePolyAcc ==> r.0 == Opposite(side)
    ensures !usePolyAcc ==> r.0 == side
  {
    if side.Largest? && !usePolyAcc then (side, true)
    else if side.Smallest? && usePolyAcc then (Largest, true)
    else if side.Largest? && usePolyAcc then (Smallest, true)
    else (side, false)
  }

  /** The first TRLM-specific check: room for at least six restart vectors. */
  function RestartBufferCheck(nEv: int, nKr: int): (r: Option<ConfigError>)
    ensures r == None <==> nEv + 6 <= nKr
  {
    if nKr < nEv + 6 then Some(RestartBufferTooSmall) else None
  }

  /** EigenSolver constructor followed by the TRLM constructor, in the order
      the checks run: sizes, spectrum switch, reverse deduction, restart
      buffer, real spectrum. */
  function ConstructTrlm(p: EigParam): (r: Result<Settings, ConfigError>)
    ensures r.Success? <==>
      0 < p.nConv <= p.nEv && p.nEv + 6 <= p.nKr &&
      p.spectrum.Spectrum? && p.spectrum.part == RealPart
  {
    match SizeChecks(p.nEv, p.nKr, p.nConv)
    case Some(e) => Failure(e)
    case None =>
      if p.spectrum.InvalidSpectrum? then Failure(UnexpectedSpectrum)
      else
        var (side, reverse) := DeduceOrdering(p.spectrum.side, p.usePolyAcc);
        match RestartBufferCheck(p.nEv, p.nKr)
        case Some(e) => Failure(e)
        case None =>
          if p.spectrum != Spectrum(Largest, RealPart) && p.spectrum != Spectrum(Smallest, RealPart) then
            Failure(SpectrumNotReal)
          else
            Success(Settings(p.nEv, p.nKr, p.nConv, p.tol, p.maxRestarts, side, p.spectrum.part,
                             reverse, p.requireConvergence))
  }

  /** `EigenSolver::create`: only the thick-restart Lanczos solver exists. */
  function Create(p: EigParam): (r: Result<Settings, ConfigError>)
    ensures r.Success? <==>
      p.eigType == TrLanczos && 0 < p.nConv <= p.nEv && p.nEv + 6 <= p.nKr &&
      (p.spectrum == Spectrum(Largest, RealPart) || p.spectrum == Spectrum(Smallest, RealPart))
    ensures p.eigType == IrArnoldi || p.eigType == IrLanczos ==> r == Failure(NotImplemented)
    ensures p.eigType == TrLanczos && p.nEv < p.nKr && p.nEv < p.nConv ==> r == Failure(ConvAboveSearch)
    ensures r.Success? ==>
      && r.value.nEv == p.nEv && r.value.nKr == p.nKr && r.value.nConv == p.nConv
      && r.value.tol == p.tol && r.value.maxRestarts == p.maxRestarts
      && r.value.requireConvergence == p.requireConvergence
      && r.value.part == RealPart
      && (r.value.reverse <==> p.usePolyAcc || p.spectrum.side == Largest)
      && r.value.side == (if p.usePolyAcc then Opposite(p.spectrum.side) else p.spectrum.side)
  {
    match p.eigType
    case IrArnoldi => Failure(NotImplemented)
    case IrLanczos => Failure(NotImplemented)
    case TrLanczos => ConstructTrlm(p)
    case InvalidEigType => Failure(InvalidSolverType)
  }

  /** What a constructed solver may rely on. */
  predicate ValidSettings(s: Settings) {
    0 < s.nConv <= s.nEv && s.nEv + 6 <= s.nKr
  }

  lemma CreateGivesValidSettings(p: EigParam)
    requires Create(p).Success?
    ensures ValidSettings(Create(p).value)
    ensures Create(p).value.nConv + 6 <= Create(p).value.nKr
  {
  }
}
