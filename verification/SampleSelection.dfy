// The selection of sqlite_stat4 samples as functions on values: which sample
// is preferred, which one makes room for another, and what one stat_push()
// does to the accumulator.  Every assert of the source is part of the model:
// a state in which one would fail is the outcome AssertFails.
module SampleSelection {
  import opened Division
  import opened IndexOrder
  import opened Wrappers

  datatype Outcome<+T> = Ok(value: T) | AssertFails {
    predicate IsFailure() {
      AssertFails?
    }

    function PropagateFailure<U>(): Outcome<U>
      requires AssertFails?
    {
      AssertFails
    }

    function Extract(): T
      requires Ok?
    {
      value
    }
  }

  datatype Sample = Sample(
    anEq: seq<nat>,
    anLt: seq<nat>,
    anDLt: seq<nat>,
    rowid: Rowid,
    isPSample: bool,
    iCol: nat,
    iHash: nat)

  datatype Accum = Accum(
    nCol: nat,
    mxSample: nat,
    nPSample: nat,
    nRow: nat,
    current: Sample,
    iPrn: nat,
    aBest: seq<Sample>,
    a: seq<Sample>,
    iMin: int,
    nMaxEqZero: nat)

  predicate SampleShape(s: Sample, nCol: nat) {
    |s.anEq| == |s.anLt| == |s.anDLt| == nCol && s.iCol < nCol
  }

  predicate AllShaped(a: seq<Sample>, nCol: nat) {
    forall k {:trigger a[k]} :: 0 <= k < |a| ==> SampleShape(a[k], nCol)
  }

  predicate Shape(p: Accum) {
    && p.nCol > 0 && p.mxSample > 0 && p.nPSample > 0
    && SampleShape(p.current, p.nCol)
    && |p.aBest| == p.nCol
    && AllShaped(p.aBest, p.nCol)
    && (forall i :: 0 <= i < p.nCol ==> p.aBest[i].iCol == i)
    && |p.a| <= p.mxSample
    && AllShaped(p.a, p.nCol)
  }

  // q is a well-formed accumulator for the same index, sized as p is.
  predicate SameIndex(p: Accum, q: Accum) {
    && Shape(q)
    && q.nCol == p.nCol && q.mxSample == p.mxSample && q.nPSample == p.nPSample && q.nRow == p.nRow
  }

  // ---- preference ----------------------------------------------------------

  predicate BetterFrom(new_: Sample, old_: Sample, i: nat)
    requires |new_.anEq| == |old_.anEq| && i <= |new_.anEq|
    decreases |new_.anEq| - i
  {
    if i == |new_.anEq| then new_.iHash > old_.iHash
    else if new_.anEq[i] != old_.anEq[i] then new_.anEq[i] > old_.anEq[i]
    else BetterFrom(new_, old_, i + 1)
  }

  predicate IsBetterPost(new_: Sample, old_: Sample)
    requires |new_.anEq| == |old_.anEq| && new_.iCol == old_.iCol < |new_.anEq|
  {
    BetterFrom(new_, old_, new_.iCol + 1)
  }

  predicate IsBetter(new_: Sample, old_: Sample)
    requires |new_.anEq| == |old_.anEq| && new_.iCol < |new_.anEq| && old_.iCol < |old_.anEq|
  {
    var nEqNew, nEqOld := new_.anEq[new_.iCol], old_.anEq[old_.iCol];
    || nEqNew > nEqOld
    || (nEqNew == nEqOld && new_.iCol < old_.iCol)
    || (nEqNew == nEqOld && new_.iCol == old_.iCol && IsBetterPost(new_, old_))
  }

  // ---- insertion -----------------------------------------------------------

  datatype Search = Blocked | Chosen(up: Option<nat>) | Fault

  // The scan, from the last sample down, for the one to upgrade in place.
  function FindUpgrade(a: seq<Sample>, new_: Sample, nCol: nat, i: nat, up: Option<nat>): (r: Search)
    requires i <= |a| && SampleShape(new_, nCol)
    requires AllShaped(a, nCol)
    requires up.Some? ==> up.value < |a|
    ensures r.Chosen? && r.up.Some? ==> r.up.value < |a|
  {
    if i == 0 then Chosen(up)
    else
      var pOld := a[i - 1];
      if pOld.anEq[new_.iCol] != 0 then FindUpgrade(a, new_, nCol, i - 1, up)
      else if pOld.isPSample then Blocked
      else if !(pOld.iCol > new_.iCol && IsBetter(new_, pOld)) then Fault
      else FindUpgrade(a, new_, nCol, i - 1,
                       if up.None? || IsBetter(pOld, a[up.value]) then Some(i - 1) else up)
  }

  // The scan for the least desirable sample that is not periodic; -1 if none.
  function MinFrom(a: seq<Sample>, nCol: nat, i: nat, iMin: int): (m: int)
    requires i <= |a| && -1 <= iMin < |a|
    requires AllShaped(a, nCol)
    ensures -1 <= m < |a|
    decreases |a| - i
  {
    if i == |a| then iMin
    else if a[i].isPSample then MinFrom(a, nCol, i + 1, iMin)
    else MinFrom(a, nCol, i + 1, if iMin < 0 || IsBetter(a[iMin], a[i]) then i else iMin)
  }

  function FindNewMin(p: Accum): (r: Outcome<Accum>)
    requires Shape(p)
    ensures r.Ok? ==> SameIndex(p, r.value)
  {
    if |p.a| < p.mxSample then Ok(p)
    else
      var m := MinFrom(p.a, p.nCol, 0, -1);
      if m < 0 then AssertFails else Ok(p.(iMin := m))
  }

  function Zeroed(anEq: seq<nat>, nEqZero: nat): (z: seq<nat>)
    requires nEqZero <= |anEq|
    ensures |z| == |anEq|
    ensures forall j :: 0 <= j < |z| ==> z[j] == if j < nEqZero then 0 else anEq[j]
  {
    seq(nEqZero, _ => 0) + anEq[nEqZero..]
  }

  function Upgraded(old_: Sample, new_: Sample, nCol: nat): Sample
    requires SampleShape(old_, nCol) && SampleShape(new_, nCol)
  {
    old_.(iCol := new_.iCol, anEq := old_.anEq[new_.iCol := new_.anEq[new_.iCol]])
  }

  // The samples that stay when a new one needs a slot.
  function Kept(p: Accum): seq<Sample>
    requires |p.a| >= p.mxSample ==> 0 <= p.iMin < |p.a|
  {
    if |p.a| >= p.mxSample then Without(p.a, p.iMin) else p.a
  }

  function Append(p: Accum, new_: Sample, nEqZero: nat): (r: Outcome<Accum>)
    requires Shape(p) && SampleShape(new_, p.nCol) && nEqZero <= p.nCol
    ensures r.Ok? ==> SameIndex(p, r.value)
  {
    if |p.a| >= p.mxSample && !(0 <= p.iMin < |p.a|) then AssertFails
    else
      var kept := Kept(p);
      if kept != [] && new_.anLt[p.nCol - 1] <= kept[|kept| - 1].anLt[p.nCol - 1] then AssertFails
      else FindNewMin(p.(a := kept + [new_.(anEq := Zeroed(new_.anEq, nEqZero))]))
  }

  lemma AppendParts(p: Accum, new_: Sample, nEqZero: nat)
    requires Shape(p) && SampleShape(new_, p.nCol) && nEqZero <= p.nCol && Append(p, new_, nEqZero).Ok?
    ensures |p.a| >= p.mxSample ==> 0 <= p.iMin < |p.a|
    ensures Kept(p) != [] ==> SampleShape(Kept(p)[|Kept(p)| - 1], p.nCol)
    ensures Kept(p) != [] ==> new_.anLt[p.nCol - 1] > Kept(p)[|Kept(p)| - 1].anLt[p.nCol - 1]
    ensures Shape(p.(a := Kept(p) + [new_.(anEq := Zeroed(new_.anEq, nEqZero))]))
    ensures Append(p, new_, nEqZero) == FindNewMin(p.(a := Kept(p) + [new_.(anEq := Zeroed(new_.anEq, nEqZero))]))
  {
  }

  function Insert(p: Accum, new_: Sample, nEqZero: nat): (r: Outcome<Accum>)
    requires Shape(p) && SampleShape(new_, p.nCol) && nEqZero <= p.nCol
    ensures r.Ok? ==> SameIndex(p, r.value)
  {
    var q := p.(nMaxEqZero := if nEqZero > p.nMaxEqZero then nEqZero else p.nMaxEqZero);
    if new_.isPSample then Append(q, new_, nEqZero)
    else if new_.anEq[new_.iCol] == 0 then AssertFails
    else
      match FindUpgrade(q.a, new_, q.nCol, |q.a|, None)
      case Blocked => Ok(q)
      case Fault => AssertFails
      case Chosen(None) => Append(q, new_, nEqZero)
      case Chosen(Some(u)) =>
        FindNewMin(q.(a := q.a[u := Upgraded(q.a[u], new_, q.nCol)]))
  }

  // ---- the previous row's groups end at column iChng -------------------------

  // Candidate i with the final size of the group that just ended.
  function Completed(p: Accum, i: nat): Sample
    requires Shape(p) && i < p.nCol
  {
    p.aBest[i].(anEq := p.aBest[i].anEq[i := p.current.anEq[i]])
  }

  // The test that decides whether candidate new_ goes to sampleInsert().
  function WantsRoom(p: Accum, new_: Sample): Outcome<bool>
    requires Shape(p) && SampleShape(new_, p.nCol)
  {
    if |p.a| < p.mxSample then Ok(true)
    else if !(0 <= p.iMin < |p.a|) || new_.isPSample || p.a[p.iMin].isPSample then AssertFails
    else Ok(IsBetter(new_, p.a[p.iMin]))
  }

  function PushCandidate(p: Accum, i: nat): (r: Outcome<Accum>)
    requires Shape(p) && i < p.nCol
    ensures r.Ok? ==> SameIndex(p, r.value)
  {
    var best := Completed(p, i);
    var q := p.(aBest := p.aBest[i := best]);
    var wants :- WantsRoom(q, best);
    if wants then Insert(q, best, i) else Ok(q)
  }

  // Columns nCol-2, nCol-3, ..., iChng.
  function PushCandidates(p: Accum, iChng: nat): (r: Outcome<Accum>)
    requires Shape(p)
    ensures r.Ok? ==> SameIndex(p, r.value)
    decreases p.nCol - iChng
  {
    if iChng >= p.nCol - 1 then Ok(p)
    else
      var q :- PushCandidates(p, iChng + 1);
      PushCandidate(q, iChng)
  }

  lemma PushCandidatesBefore(p: Accum, i: nat)
    requires Shape(p) && i < p.nCol - 1 && PushCandidates(p, i).Ok?
    ensures PushCandidates(p, i + 1).Ok?
  {
  }

  // When the loop ends well, so do its turns.
  lemma {:induction false} PushCandidatesSoFar(p: Accum, i: nat, iChng: nat)
    requires Shape(p) && iChng <= i < p.nCol - 1 && PushCandidates(p, iChng).Ok?
    ensures PushCandidates(p, i).Ok?
    decreases i - iChng
  {
    hide PushCandidate;
    if i > iChng {
      PushCandidatesBefore(p, iChng);
      PushCandidatesSoFar(p, i, iChng + 1);
    }
  }

  lemma PushCandidatesTurn(p: Accum, q: Accum, i: nat, r: Outcome<Accum>)
    requires Shape(p) && Shape(q) && q.nCol == p.nCol && i < p.nCol - 1 && PushCandidates(p, i + 1) == Ok(q)
    requires r == PushCandidate(q, i)
    ensures PushCandidates(p, i) == r
  {
  }

  function FilledCounts(anEq: seq<nat>, current: seq<nat>, iChng: nat): (f: seq<nat>)
    requires |anEq| == |current|
  {
    seq(|anEq|, j requires 0 <= j < |anEq| =>
      if j >= iChng && anEq[j] == 0 then current[j] else anEq[j])
  }

  function Filled(p: Accum, iChng: nat): Accum
    requires Shape(p)
  {
    if iChng < p.nMaxEqZero then
      p.(nMaxEqZero := iChng,
         a := seq(|p.a|, k requires 0 <= k < |p.a| =>
           p.a[k].(anEq := FilledCounts(p.a[k].anEq, p.current.anEq, iChng))))
    else p
  }

  predicate NoZeroFrom(a: seq<Sample>, nCol: nat, from: nat)
    requires AllShaped(a, nCol)
  {
    forall k, j :: 0 <= k < |a| && from <= j < nCol ==> a[k].anEq[j] > 0
  }

  function PushPrevious(p: Accum, iChng: nat): (r: Outcome<Accum>)
    requires Shape(p) && iChng < p.nCol
    ensures r.Ok? ==> SameIndex(p, r.value)
  {
    var q :- PushCandidates(p, iChng);
    if !NoZeroFrom(q.a, q.nCol, q.nMaxEqZero) then AssertFails
    else Ok(Filled(q, iChng))
  }

  lemma PushPreviousStarts(p: Accum, iChng: nat)
    requires Shape(p) && iChng < p.nCol && PushPrevious(p, iChng).Ok?
    ensures PushCandidates(p, iChng).Ok?
  {
  }

  lemma PushPreviousEnds(p: Accum, iChng: nat, q: Accum)
    requires Shape(p) && iChng < p.nCol && PushPrevious(p, iChng).Ok?
    requires PushCandidates(p, iChng) == Ok(q)
    ensures SameIndex(p, q) && NoZeroFrom(q.a, q.nCol, q.nMaxEqZero)
    ensures PushPrevious(p, iChng) == Ok(Filled(q, iChng))
  {
  }

  // ---- the next row ----------------------------------------------------------

  function NextPrn(iPrn: nat): nat {
    AsU32(iPrn * 1103515245 + 12345)
  }

  // The counts of the current row, stepped over a change in column iChng.
  function Advanced(c: Sample, iChng: nat): Sample
    requires |c.anEq| == |c.anLt| == |c.anDLt|
  {
    var n := |c.anEq|;
    c.(anDLt := seq(n, j requires 0 <= j < n => if j < iChng then c.anDLt[j] else c.anDLt[j] + 1),
       anLt := seq(n, j requires 0 <= j < n => if j < iChng then c.anLt[j] else c.anLt[j] + c.anEq[j]),
       anEq := seq(n, j requires 0 <= j < n => if j < iChng then c.anEq[j] + 1 else 1))
  }

  function Stepped(p: Accum, iChng: nat): (r: Outcome<Accum>)
    requires Shape(p) && iChng < p.nCol
    ensures r.Ok? ==> SameIndex(p, r.value)
  {
    if p.nRow == 0 then
      Ok(p.(current := p.current.(anEq := seq(p.nCol, _ => 1))))
    else
      var q :- PushPrevious(p, iChng);
      Ok(q.(current := Advanced(q.current, iChng)))
  }

  function Identified(p: Accum, rowid: Rowid): (r: Accum)
    requires Shape(p)
    ensures SameIndex(p.(nRow := p.nRow + 1), r)
  {
    var prn := NextPrn(p.iPrn);
    p.(nRow := p.nRow + 1, iPrn := prn, current := p.current.(rowid := rowid, iHash := prn))
  }

  // Is the current row to be a periodic sample?
  predicate IsPeriodic(nLt: nat, nPSample: nat)
    requires nPSample > 0
  {
    Quot(nLt, nPSample) != Quot(nLt + 1, nPSample)
  }

  function PushPeriodic(p: Accum): (r: Outcome<Accum>)
    requires Shape(p)
    ensures r.Ok? ==> SameIndex(p, r.value)
  {
    if IsPeriodic(p.current.anLt[p.nCol - 1], p.nPSample) then
      var c := p.current.(isPSample := true, iCol := 0);
      var q :- Insert(p, c, p.nCol - 1);
      Ok(q.(current := c.(isPSample := false)))
    else Ok(p)
  }

  function BestAfter(old_: Sample, c: Sample, i: nat, iChng: nat): Sample
    requires |old_.anEq| == |c.anEq| && old_.iCol == i < |c.anEq|
  {
    if i >= iChng || IsBetterPost(c.(iCol := i), old_) then c.(iCol := i) else old_
  }

  function Renewed(p: Accum, iChng: nat): (r: Accum)
    requires Shape(p)
    ensures SameIndex(p, r)
  {
    p.(current := if p.nCol >= 2 then p.current.(iCol := p.nCol - 2) else p.current,
       aBest := seq(p.nCol, i requires 0 <= i < p.nCol =>
         if i < p.nCol - 1 then BestAfter(p.aBest[i], p.current, i, iChng) else p.aBest[i]))
  }

  // stat_push(P, iChng, rowid)
  function Push(p: Accum, iChng: nat, rowid: Rowid): (r: Outcome<Accum>)
    requires Shape(p) && iChng < p.nCol
    ensures r.Ok? ==> SameIndex(p.(nRow := p.nRow + 1), r.value)
  {
    var q :- Stepped(p, iChng);
    var r :- PushPeriodic(Identified(q, rowid));
    Ok(Renewed(r, iChng))
  }
}
