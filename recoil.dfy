/** Recoil patterns: a bounded store of named step lists, and the text parsers
    of the `recoil.add(name){x,y,delay,...}` and `recoil.delete(name)`
    commands. */
module Recoil {
  import opened Common
  import opened Decimal

  const MaxPatterns: nat := 16
  const MaxNameLen: nat := 32
  const MaxSteps: nat := 64

  const OpenParen: u8 := 0x28
  const CloseParen: u8 := 0x29
  const OpenBrace: u8 := 0x7B
  const CloseBrace: u8 := 0x7D

  /** `nozen.recoil.add(` */
  const AddPrefix: seq<u8> := [0x6E, 0x6F, 0x7A, 0x65, 0x6E, 0x2E, 0x72, 0x65, 0x63, 0x6F, 0x69, 0x6C,
                               0x2E, 0x61, 0x64, 0x64, 0x28]

  /** A named pattern: triplets of x, y and delay in milliseconds. */
  datatype RecoilPattern = RecoilPattern(name: seq<u8>, steps: seq<i16>)

  /** Why a pattern was refused. */
  datatype RecoilError = NotTriplets | TooLong | NameTooLong | StorageFull

  /** The firmware's text for each refusal. */
  function Message(e: RecoilError): string {
    match e
    case NotTriplets => "Pattern must be x,y,delay triplets"
    case TooLong => "Pattern too long"
    case NameTooLong => "Name too long"
    case StorageFull => "Pattern storage full"
  }

  type Store = map<seq<u8>, RecoilPattern>

  /** What every reachable store satisfies: at most 16 patterns, each filed
      under its own name of at most 32 bytes, with a whole number of
      triplets and at most 64 steps. */
  ghost predicate ValidStore(m: Store) {
    |m| <= MaxPatterns
    && forall k | k in m ::
      |k| <= MaxNameLen && m[k].name == k && |m[k].steps| <= MaxSteps && |m[k].steps| % 3 == 0
  }

  // ---------------------------------------------------------------------------
  // The store, as values

  /** Adding a pattern: the step count is checked for triplets first, then for
      length, then the name, then the capacity; a known name is replaced. */
  function Add(m: Store, name: seq<u8>, steps: seq<i16>): (r: (Result<(), RecoilError>, Store))
    ensures r.0.Err? ==> r.1 == m
    ensures r.0.Ok? ==> r.1.Keys == m.Keys + {name} && r.1[name] == RecoilPattern(name, steps)
  {
    if |steps| % 3 != 0 then (Err(NotTriplets), m)
    else if |steps| > MaxSteps then (Err(TooLong), m)
    else if |name| > MaxNameLen then (Err(NameTooLong), m)
    else if name !in m && |m| >= MaxPatterns then (Err(StorageFull), m)
    else (Ok(()), m[name := RecoilPattern(name, steps)])
  }

  /** Looking a pattern up; a name too long to be a key finds nothing. */
  function Lookup(m: Store, name: seq<u8>): (r: Option<RecoilPattern>)
    ensures r.Some? <==> |name| <= MaxNameLen && name in m
    ensures r.Some? ==> r.value == m[name]
  {
    if |name| > MaxNameLen || name !in m then None else Some(m[name])
  }

  /** Deleting a pattern: reports whether it was there. */
  function Delete(m: Store, name: seq<u8>): (r: (bool, Store))
    ensures r.0 <==> Lookup(m, name).Some?
    ensures Lookup(r.1, name).None?
    ensures forall k | k in r.1 :: k in m && r.1[k] == m[k]
  {
    if |name| > MaxNameLen then (false, m)
    else (name in m, m - {name})
  }

  /** The outcome of an add, and that a refused add changes nothing. */
  lemma AddOutcome(m: Store, name: seq<u8>, steps: seq<i16>)
    ensures Add(m, name, steps).0.Ok? <==>
      |steps| % 3 == 0 && |steps| <= MaxSteps && |name| <= MaxNameLen && (name in m || |m| < MaxPatterns)
    ensures Add(m, name, steps).0.Err? ==> Add(m, name, steps).1 == m
    ensures |steps| % 3 != 0 ==> Add(m, name, steps).0 == Err(NotTriplets)
    ensures |steps| % 3 == 0 && |steps| > MaxSteps ==> Add(m, name, steps).0 == Err(TooLong)
    ensures |steps| % 3 == 0 && |steps| <= MaxSteps && |name| > MaxNameLen ==>
      Add(m, name, steps).0 == Err(NameTooLong)
  {
  }

  /** The longest accepted pattern has 63 steps: 64 and 65 are not whole
      triplets, and 66 is too long. */
  lemma LongestPattern(m: Store, name: seq<u8>, s63: seq<i16>, s64: seq<i16>, s66: seq<i16>)
    requires |name| <= MaxNameLen && name in m
    requires |s63| == 63 && |s64| == 64 && |s66| == 66
    ensures Add(m, name, s63).0.Ok?
    ensures Add(m, name, s64).0 == Err(NotTriplets)
    ensures Add(m, name, s66).0 == Err(TooLong)
  {
  }

  /** After an accepted add the name finds exactly those steps, every other
      name finds what it found before, and the count grows only for a new
      name. */
  lemma AddThenLookup(m: Store, name: seq<u8>, steps: seq<i16>, other: seq<u8>)
    requires Add(m, name, steps).0.Ok?
    ensures Lookup(Add(m, name, steps).1, name) == Some(RecoilPattern(name, steps))
    ensures other != name ==> Lookup(Add(m, name, steps).1, other) == Lookup(m, other)
    ensures |Add(m, name, steps).1| == if name in m then |m| else |m| + 1
  {
  }

  /** A full store refuses a new name and keeps its contents. */
  lemma FullStoreRefuses(m: Store, name: seq<u8>, steps: seq<i16>)
    requires ValidStore(m) && |m| == MaxPatterns && name !in m
    requires |steps| % 3 == 0 && |steps| <= MaxSteps && |name| <= MaxNameLen
    ensures Add(m, name, steps) == (Err(StorageFull), m)
  {
  }

  /** Adding keeps the store valid. */
  lemma AddKeepsValid(m: Store, name: seq<u8>, steps: seq<i16>)
    requires ValidStore(m)
    ensures ValidStore(Add(m, name, steps).1)
  {
    var r := Add(m, name, steps);
    if r.0.Ok? {
      var m' := r.1;
      forall k | k in m'
        ensures |k| <= MaxNameLen && m'[k].name == k && |m'[k].steps| <= MaxSteps && |m'[k].steps| % 3 == 0
      {
        if k != name {
          assert k in m;
        }
      }
    }
  }

  /** Delete reports presence; afterwards the name finds nothing and every
      other name finds what it found before. */
  lemma DeleteThenLookup(m: Store, name: seq<u8>, other: seq<u8>)
    ensures Delete(m, name).0 == Lookup(m, name).Some?
    ensures Lookup(Delete(m, name).1, name) == None
    ensures other != name ==> Lookup(Delete(m, name).1, other) == Lookup(m, other)
  {
  }

  /** Deleting keeps the store valid. */
  lemma DeleteKeepsValid(m: Store, name: seq<u8>)
    requires ValidStore(m)
    ensures ValidStore(Delete(m, name).1)
  {
    var m' := Delete(m, name).1;
    assert forall k | k in m' :: k in m;
    assert m'.Keys <= m.Keys;
    SubsetCard(m'.Keys, m.Keys);
  }

  lemma {:induction false} SubsetCard<T>(a: set<T>, b: set<T>)
    requires a <= b
    ensures |a| <= |b|
    decreases |b|
  {
    if a != {} {
      var x :| x in a;
      SubsetCard(a - {x}, b - {x});
    }
  }

  // ---------------------------------------------------------------------------
  // The store, as the firmware's object

  /** The pattern store: a capacity-16 map from names to patterns. */
  class RecoilManager {
    var patterns: Store

    ghost predicate Valid()
      reads this
    {
      ValidStore(patterns)
    }

    constructor()
      ensures Valid() && patterns == map[]
    {
      patterns := map[];
    }

    /** Adds or replaces a pattern, copying its steps. */
    method AddPattern(name: seq<u8>, steps: seq<i16>) returns (r: Result<(), RecoilError>)
      requires Valid()
      modifies this
      ensures Valid()
      ensures (r, patterns) == Add(old(patterns), name, steps)
    {
      AddKeepsValid(patterns, name, steps);
      if |steps| % 3 != 0 {
        return Err(NotTriplets);
      }
      if |steps| > MaxSteps {
        return Err(TooLong);
      }
      if |name| > MaxNameLen {
        return Err(NameTooLong);
      }
      // The copy cannot overflow: the length was checked above.
      var copy: seq<i16> := [];
      for i := 0 to |steps|
        invariant copy == steps[..i]
      {
        copy := copy + [steps[i]];
      }
      assert copy == steps;
      if name !in patterns && |patterns| >= MaxPatterns {
        return Err(StorageFull);
      }
      patterns := patterns[name := RecoilPattern(name, copy)];
      r := Ok(());
    }

    /** Removes a pattern; true iff it was there. */
    method DeletePattern(name: seq<u8>) returns (found: bool)
      requires Valid()
      modifies this
      ensures Valid()
      ensures (found, patterns) == Delete(old(patterns), name)
    {
      DeleteKeepsValid(patterns, name);
      if |name| > MaxNameLen {
        return false;
      }
      found := name in patterns;
      patterns := patterns - {name};
    }

    /** The pattern stored under `name`, if any. */
    function GetPattern(name: seq<u8>): (r: Option<RecoilPattern>)
      reads this
      ensures r.Some? <==> |name| <= MaxNameLen && name in patterns
      ensures r.Some? ==> r.value == patterns[name]
    {
      Lookup(patterns, name)
    }

    /** The number of stored patterns, never more than 16. */
    function Count(): (n: nat)
      reads this
      requires Valid()
      ensures n <= MaxPatterns
    {
      |patterns|
    }
  }

  // ---------------------------------------------------------------------------
  // parse_i16: spaces, an optional '-', digits, saturating at 32767

  const I16Cap: nat := 0x7FFF

  /** The value `parse_i16` reads: the magnitude saturates at 32767 before the
      sign is applied. */
  function I16Value(data: seq<u8>): (r: i16)
    ensures -0x7FFF <= r <= 0x7FFF
  {
    var v := Min(Value(NumberDigits(data)), I16Cap);
    if Negative(data) then 0 - v else v
  }

  lemma SaturateStep(v: nat, d: nat)
    requires d <= 9
    ensures Min(Min(Min(v, I16Cap) * 10, I16Cap) + d, I16Cap) == Min(v * 10 + d, I16Cap)
  {
  }

  /** Accumulates the leading digit run in a saturating `i16`. */
  method SaturatingDigits(s: seq<u8>) returns (value: i16, idx: nat)
    ensures idx == DigitRun(s)
    ensures value == Min(Value(s[..idx]), I16Cap)
  {
    value, idx := 0, 0;
    while idx < |s| && IsDigit(s[idx])
      invariant idx <= |s| && AllDigits(s[..idx])
      invariant value == Min(Value(s[..idx]), I16Cap)
    {
      ValueSnoc(s, idx);
      SaturateStep(Value(s[..idx]), s[idx] - 0x30);
      var scaled := Min(value * 10, I16Cap);
      value := Min(scaled + (s[idx] - 0x30), I16Cap);
      idx := idx + 1;
    }
    DigitRunUnique(s, idx);
  }

  /** Skips spaces, takes an optional '-', then reads the digits, saturating.
      It never fails. */
  method ParseI16(data: seq<u8>) returns (r: Option<i16>)
    ensures r == Some(I16Value(data))
  {
    var negative := false;
    var idx := 0;
    while idx < |data| && data[idx] == Space
      invariant idx <= |data| && forall j | 0 <= j < idx :: data[j] == Space
    {
      idx := idx + 1;
    }
    SpaceRunUnique(data, idx);
    if idx < |data| && data[idx] == Minus {
      negative := true;
      idx := idx + 1;
    }
    assert idx == DigitsStart(data);
    var value, count := SaturatingDigits(data[idx..]);
    assert data[idx..][..count] == NumberDigits(data);
    if negative {
      value := 0 - value;
    }
    r := Some(value);
  }

  /** Every value in [-32767, 32767] reads back from its decimal text. */
  lemma I16ValueOfText(v: int)
    requires -0x7FFF <= v <= 0x7FFF
    ensures I16Value(SignedText(v)) == v
  {
    SignedTextValue(v);
  }

  /** Magnitudes beyond 32767 saturate; an empty text reads as 0. */
  lemma I16ValueSaturates(data: seq<u8>)
    ensures Value(NumberDigits(data)) >= I16Cap ==>
      I16Value(data) == if Negative(data) then -0x7FFF else 0x7FFF
    ensures I16Value([]) == 0
  {
    assert NumberDigits([]) == [];
  }

  // ---------------------------------------------------------------------------
  // Splitting the `{...}` contents on commas

  predicate NoComma(s: seq<u8>) {
    Comma !in s
  }

  /** The index of the last comma. */
  function LastComma(t: seq<u8>): (r: Option<nat>)
    ensures r.None? <==> Comma !in t
    ensures r.Some? ==> r.value < |t| && t[r.value] == Comma && Comma !in t[r.value + 1..]
  {
    if |t| == 0 then None
    else if t[|t| - 1] == Comma then Some(|t| - 1)
    else
      var p := t[..|t| - 1];
      assert t == p + [t[|t| - 1]];
      match LastComma(p)
      case None => None
      case Some(k) =>
        assert t[k + 1..] == p[k + 1..] + [t[|t| - 1]];
        Some(k)
  }

  /** A comma with none after it is the last comma. */
  lemma LastCommaIs(t: seq<u8>, k: nat)
    requires k < |t| && t[k] == Comma && Comma !in t[k + 1..]
    ensures LastComma(t) == Some(k)
  {
    var r := LastComma(t).value;
  }

  /** The pieces between commas, empty ones included. */
  function SplitR(t: seq<u8>): (p: seq<seq<u8>>)
    ensures |p| >= 1
    decreases |t|
  {
    match LastComma(t)
    case None => [t]
    case Some(k) => SplitR(t[..k]) + [t[k + 1..]]
  }

  /** The pieces of the pattern text: nothing for an empty text, and a
      trailing comma adds no piece. */
  function Pieces(s: seq<u8>): (p: seq<seq<u8>>)
    ensures |p| == 0 <==> |s| == 0
  {
    if |s| == 0 then []
    else if s[|s| - 1] == Comma then SplitR(s[..|s| - 1])
    else SplitR(s)
  }

  /** Each piece read by `parse_i16`. */
  function Values(p: seq<seq<u8>>): (v: seq<i16>)
    ensures |v| == |p|
    ensures forall k | 0 <= k < |p| :: v[k] == I16Value(p[k])
  {
    seq(|p|, k requires 0 <= k < |p| => I16Value(p[k]))
  }

  lemma ValuesSnoc(p: seq<seq<u8>>, x: seq<u8>)
    ensures Values(p + [x]) == Values(p) + [I16Value(x)]
  {
  }

  /** The number of commas. */
  function CommaCount(t: seq<u8>): nat {
    if |t| == 0 then 0 else CommaCount(t[..|t| - 1]) + (if t[|t| - 1] == Comma then 1 else 0)
  }

  lemma {:induction false} CommaCountConcat(a: seq<u8>, b: seq<u8>)
    ensures CommaCount(a + b) == CommaCount(a) + CommaCount(b)
    decreases |b|
  {
    if |b| == 0 {
      assert a + b == a;
    } else {
      assert (a + b)[..|a + b| - 1] == a + b[..|b| - 1];
      CommaCountConcat(a, b[..|b| - 1]);
    }
  }

  lemma {:induction false} CommaCountNone(t: seq<u8>)
    requires Comma !in t
    ensures CommaCount(t) == 0
    decreases |t|
  {
    if |t| > 0 {
      assert t[|t| - 1] in t;
      assert forall j | 0 <= j < |t| - 1 :: t[..|t| - 1][j] == t[j];
      CommaCountNone(t[..|t| - 1]);
    }
  }

  /** There is one more piece than there are commas. */
  lemma {:induction false} SplitRCount(t: seq<u8>)
    ensures |SplitR(t)| == CommaCount(t) + 1
    decreases |t|
  {
    match LastComma(t)
    case None =>
      CommaCountNone(t);
    case Some(k) =>
      assert t == t[..k] + [Comma] + t[k + 1..];
      CommaCountConcat(t[..k] + [Comma], t[k + 1..]);
      CommaCountConcat(t[..k], [Comma]);
      assert CommaCount([Comma]) == CommaCount([Comma][..0]) + 1;
      CommaCountNone(t[k + 1..]);
      SplitRCount(t[..k]);
  }

  /** A pattern text has one piece per comma-separated value: one more than
      its commas, unless it ends in a comma. */
  lemma PiecesCount(s: seq<u8>)
    requires |s| > 0
    ensures |Pieces(s)| == if s[|s| - 1] == Comma then CommaCount(s) else CommaCount(s) + 1
  {
    if s[|s| - 1] == Comma {
      SplitRCount(s[..|s| - 1]);
    } else {
      SplitRCount(s);
    }
  }

  lemma CommaCountPrefix(t: seq<u8>, k: nat)
    requires k <= |t|
    ensures CommaCount(t[..k]) <= CommaCount(t)
  {
    assert t == t[..k] + t[k..];
    CommaCountConcat(t[..k], t[k..]);
  }

  /** The pieces completed before `start`: those of the text before the comma
      at `start - 1`. */
  function Done(s: seq<u8>, start: nat): seq<seq<u8>>
    requires start <= |s|
  {
    if start == 0 then [] else SplitR(s[..start - 1])
  }

  /** A comma at `i` completes the piece that began at `start`. */
  lemma DoneStep(s: seq<u8>, start: nat, i: nat)
    requires start <= i < |s| && s[i] == Comma && Comma !in s[start..i]
    requires start > 0 ==> s[start - 1] == Comma
    ensures Done(s, i + 1) == Done(s, start) + [s[start..i]]
  {
    var t := s[..i];
    if start > 0 {
      assert t[start..] == s[start..i] && t[..start - 1] == s[..start - 1];
      SplitRAt(t, start - 1);
    } else {
      assert t == s[start..i];
    }
  }

  /** The piece after the last comma is split off. */
  lemma SplitRAt(t: seq<u8>, k: nat)
    requires k < |t| && t[k] == Comma && Comma !in t[k + 1..]
    ensures SplitR(t) == SplitR(t[..k]) + [t[k + 1..]]
  {
    LastCommaIs(t, k);
  }

  /** The last byte, when it is not a comma, completes the last piece. */
  lemma DoneLast(s: seq<u8>, start: nat)
    requires start < |s| && s[|s| - 1] != Comma && Comma !in s[start..|s| - 1]
    requires start > 0 ==> s[start - 1] == Comma
    ensures Pieces(s) == Done(s, start) + [s[start..]]
  {
    assert s[start..] == s[start..|s| - 1] + [s[|s| - 1]];
    if start > 0 {
      LastCommaIs(s, start - 1);
      assert s[..|s|] == s;
    }
  }

  /** A split point at `i` completes the piece from `start`: a comma before
      the end adds it to the completed pieces, and the last byte completes
      the whole text. */
  lemma PushStep(s: seq<u8>, start: nat, i: nat)
    requires start <= i < |s| && (s[i] == Comma || i == |s| - 1) && Comma !in s[start..i]
    requires start > 0 ==> s[start - 1] == Comma
    ensures i + 1 < |s| ==> Done(s, i + 1) == Done(s, start) + [s[start..i]]
    ensures i + 1 == |s| ==>
      Pieces(s) == Done(s, start) + [s[start..if s[i] == Comma then i else i + 1]]
  {
    if s[i] == Comma {
      DoneStep(s, start, i);
      if i == |s| - 1 {
        assert s[..|s| - 1] == s[..i];
      }
    } else {
      DoneLast(s, start);
      assert s[start..i + 1] == s[start..];
    }
  }

  /** The loop's invariant after a value is pushed at a split point. */
  lemma PushKeeps(s: seq<u8>, start: nat, i: nat, steps: seq<i16>)
    requires start <= i < |s| && (s[i] == Comma || i == |s| - 1) && Comma !in s[start..i]
    requires start > 0 ==> s[start - 1] == Comma
    requires steps == Values(Done(s, start))
    ensures var steps' := steps + [I16Value(s[start..if s[i] == Comma then i else i + 1])];
      (i + 1 < |s| ==> s[i] == Comma && steps' == Values(Done(s, i + 1)))
      && (i + 1 == |s| ==> steps' == Values(Pieces(s)))
  {
    PushStep(s, start, i);
    ValuesSnoc(Done(s, start), s[start..if s[i] == Comma then i else i + 1]);
  }

  /** The completed pieces are one per comma before `start`. */
  lemma DoneIsCommaCount(s: seq<u8>, start: nat)
    requires start <= |s| && (start > 0 ==> s[start - 1] == Comma)
    ensures |Done(s, start)| == CommaCount(s[..start])
  {
    if start > 0 {
      SplitRCount(s[..start - 1]);
      assert s[..start] == s[..start - 1] + [Comma];
      CommaCountConcat(s[..start - 1], [Comma]);
      assert CommaCount([Comma]) == CommaCount([Comma][..0]) + 1;
    }
  }

  /** Commas up to and including a comma at `i`, counted in the text before
      the last byte. */
  lemma CommaCountThrough(s: seq<u8>, start: nat, i: nat)
    requires start <= i < |s| - 1 && s[i] == Comma
    ensures CommaCount(s[..start]) + 1 <= CommaCount(s[..|s| - 1])
  {
    assert s[..|s| - 1][..i + 1] == s[..i + 1];
    CommaCountPrefix(s[..|s| - 1], i + 1);
    assert s[..i + 1][..i] == s[..i];
    CommaCountPrefix(s[..i], start);
    assert s[..i][..start] == s[..start];
  }

  /** The completed pieces never outnumber the pieces of the whole text. */
  lemma DoneCount(s: seq<u8>, start: nat, i: nat)
    requires start <= i < |s| && (s[i] == Comma || i == |s| - 1)
    requires start > 0 ==> s[start - 1] == Comma
    ensures |Done(s, start)| + 1 <= |Pieces(s)|
  {
    DoneIsCommaCount(s, start);
    if s[|s| - 1] == Comma {
      SplitRCount(s[..|s| - 1]);
      if i < |s| - 1 {
        CommaCountThrough(s, start, i);
      } else {
        CommaCountPrefix(s[..|s| - 1], start);
        assert s[..|s| - 1][..start] == s[..start];
      }
    } else {
      SplitRCount(s);
      CommaCountPrefix(s, start);
    }
  }

  /** One split point of the splitting loop: the piece from `start` is
      parsed and pushed, unless 64 values are already there. */
  method PushPiece(s: seq<u8>, start: nat, i: nat, steps: seq<i16>) returns (full: bool, steps': seq<i16>)
    requires start <= i < |s| && (s[i] == Comma || i == |s| - 1) && Comma !in s[start..i]
    requires start > 0 ==> s[start - 1] == Comma
    requires steps == Values(Done(s, start)) && |steps| <= MaxSteps
    ensures full ==> |Pieces(s)| > MaxSteps
    ensures !full ==> |steps'| <= MaxSteps
    ensures !full && i + 1 < |s| ==> s[i] == Comma && steps' == Values(Done(s, i + 1))
    ensures !full && i + 1 == |s| ==> steps' == Values(Pieces(s))
  {
    var end := if s[i] == Comma then i else i + 1;
    // parse_i16 never fails.
    var value := ParseI16(s[start..end]);
    if |steps| == MaxSteps {
      DoneCount(s, start, i);
      return true, steps;
    }
    PushKeeps(s, start, i, steps);
    full, steps' := false, steps + [value.value];
  }

  /** A byte that is not a comma extends the current piece. */
  lemma PieceGrows(s: seq<u8>, start: nat, i: nat)
    requires start <= i < |s| && s[i] != Comma && Comma !in s[start..i]
    ensures Comma !in s[start..i + 1]
  {
    assert s[start..i + 1] == s[start..i] + [s[i]];
  }

  /** The splitting loop of `parse_recoil_add`: one `parse_i16` value per
      piece, and nothing when there are more than 64. */
  method SplitValues(s: seq<u8>) returns (r: Option<seq<i16>>)
    ensures r == if |Pieces(s)| > MaxSteps then None else Some(Values(Pieces(s)))
  {
    var steps: seq<i16> := [];
    var start := 0;
    for i := 0 to |s|
      invariant start <= i && Comma !in s[start..i]
      invariant start > 0 && i < |s| ==> s[start - 1] == Comma
      invariant i < |s| ==> steps == Values(Done(s, start))
      invariant i == |s| ==> steps == Values(Pieces(s))
      invariant |steps| <= MaxSteps
    {
      if s[i] == Comma || i == |s| - 1 {
        var full;
        full, steps := PushPiece(s, start, i, steps);
        if full {
          return None;
        }
        start := i + 1;
      } else {
        PieceGrows(s, start, i);
      }
    }
    r := Some(steps);
  }

  /** The values between the first '{' and the next '}', at most 64 of them. */
  function BracedSteps(after: seq<u8>): Option<seq<i16>> {
    match Position(after, OpenBrace)
    case None => None
    case Some(open) =>
      var data := after[open + 1..];
      match Position(data, CloseBrace)
      case None => None
      case Some(close) =>
        var pieces := Pieces(data[..close]);
        if |pieces| > MaxSteps then None else Some(Values(pieces))
  }

  /** What `parse_recoil_add` reads from a line: the name between the prefix
      and ')', then the values between the next '{' and the '}' after it. */
  function RecoilAdd(line: seq<u8>): (r: Option<(seq<u8>, seq<i16>)>)
    ensures |line| < |AddPrefix| ==> r.None?
    ensures r.Some? ==> |AddPrefix| + |r.value.0| <= |line| && line[|AddPrefix|..][..|r.value.0|] == r.value.0
    ensures r.Some? ==> CloseParen !in r.value.0
    ensures r.Some? ==> |r.value.1| <= MaxSteps
  {
    if |line| < |AddPrefix| then None
    else
      var args := line[|AddPrefix|..];
      match Position(args, CloseParen)
      case None => None
      case Some(nameEnd) =>
        match BracedSteps(args[nameEnd + 1..])
        case None => None
        case Some(steps) => Some((args[..nameEnd], steps))
  }

  method ReadBracedSteps(after: seq<u8>) returns (r: Option<seq<i16>>)
    ensures r == BracedSteps(after)
  {
    var open := Position(after, OpenBrace);
    if open.None? {
      return None;
    }
    var data := after[open.value + 1..];
    var close := Position(data, CloseBrace);
    if close.None? {
      return None;
    }
    r := SplitValues(data[..close.value]);
  }

  method ParseRecoilAdd(line: seq<u8>) returns (r: Option<(seq<u8>, seq<i16>)>)
    ensures r == RecoilAdd(line)
  {
    if |line| < |AddPrefix| {
      return None;
    }
    var args := line[|AddPrefix|..];
    var nameEnd := Position(args, CloseParen);
    if nameEnd.None? {
      return None;
    }
    var steps := ReadBracedSteps(args[nameEnd.value + 1..]);
    if steps.None? {
      return None;
    }
    r := Some((args[..nameEnd.value], steps.value));
  }

  // ---------------------------------------------------------------------------
  // Round trip of the add command

  /** Values written as decimal texts joined by commas. */
  function Join(vs: seq<int>): seq<u8> {
    if |vs| == 0 then []
    else if |vs| == 1 then SignedText(vs[0])
    else Join(vs[..|vs| - 1]) + [Comma] + SignedText(vs[|vs| - 1])
  }

  /** The decimal texts of the values. */
  function Texts(vs: seq<int>): (t: seq<seq<u8>>)
    ensures |t| == |vs|
  {
    if |vs| == 0 then [] else Texts(vs[..|vs| - 1]) + [SignedText(vs[|vs| - 1])]
  }

  /** A joined text holds digits, minus signs and commas only. */
  lemma {:induction false} JoinChars(vs: seq<int>)
    ensures forall j | 0 <= j < |Join(vs)| :: IsDigit(Join(vs)[j]) || Join(vs)[j] == Minus || Join(vs)[j] == Comma
    decreases |vs|
  {
    if |vs| == 1 {
      SignedTextChars(vs[0]);
    } else if |vs| > 1 {
      JoinChars(vs[..|vs| - 1]);
      SignedTextChars(vs[|vs| - 1]);
    }
  }

  lemma SignedTextNoComma(v: int)
    ensures Comma !in SignedText(v)
    ensures !IsDigit(Comma) && SignedText(v)[|SignedText(v)| - 1] != Comma
  {
    SignedTextChars(v);
  }

  /** A last piece without a comma splits off after the last comma. */
  lemma SplitLastPiece(a: seq<u8>, b: seq<u8>)
    requires Comma !in b
    ensures SplitR(a + [Comma] + b) == SplitR(a) + [b]
  {
    var t := a + [Comma] + b;
    assert t[|a| + 1..] == b;
    LastCommaIs(t, |a|);
    assert t[..|a|] == a;
  }

  /** Splitting a joined text gives back the texts it joined. */
  lemma {:induction false} SplitJoin(vs: seq<int>)
    requires |vs| >= 1
    ensures SplitR(Join(vs)) == Texts(vs)
    decreases |vs|
  {
    if |vs| == 1 {
      SignedTextNoComma(vs[0]);
      assert vs[..0] == [];
    } else {
      var init := vs[..|vs| - 1];
      SignedTextNoComma(vs[|vs| - 1]);
      SplitLastPiece(Join(init), SignedText(vs[|vs| - 1]));
      SplitJoin(init);
    }
  }

  /** Reading the texts back gives the values. */
  lemma {:induction false} ValuesOfTexts(vs: seq<int>)
    requires forall k | 0 <= k < |vs| :: -0x7FFF <= vs[k] <= 0x7FFF
    ensures Values(Texts(vs)) == vs
    decreases |vs|
  {
    if |vs| > 0 {
      var init := vs[..|vs| - 1];
      ValuesOfTexts(init);
      ValuesSnoc(Texts(init), SignedText(vs[|vs| - 1]));
      I16ValueOfText(vs[|vs| - 1]);
    }
  }

  /** The last byte of a joined text is the last byte of its last value. */
  lemma JoinLast(vs: seq<int>)
    requires |vs| >= 1
    ensures Join(vs)[|Join(vs)| - 1] != Comma
  {
    SignedTextNoComma(vs[|vs| - 1]);
  }

  /** The pieces of a joined text are the joined texts: its last byte is a
      digit, so nothing is dropped. */
  lemma PiecesOfJoin(vs: seq<int>)
    requires forall k | 0 <= k < |vs| :: -0x7FFF <= vs[k] <= 0x7FFF
    ensures Values(Pieces(Join(vs))) == vs
  {
    if |vs| > 0 {
      JoinLast(vs);
      SplitJoin(vs);
    }
    ValuesOfTexts(vs);
  }

  /** A trailing comma adds no value. */
  lemma TrailingComma(vs: seq<int>)
    requires |vs| >= 1
    ensures Pieces(Join(vs) + [Comma]) == Pieces(Join(vs))
  {
    var t := Join(vs);
    assert (t + [Comma])[..|t|] == t;
    JoinLast(vs);
  }

  /** An empty piece between two commas is kept, and reads as 0. */
  lemma EmptyPiece(a: seq<u8>, b: seq<u8>)
    requires Comma !in b
    ensures SplitR(a + [Comma] + [Comma] + b) == SplitR(a) + [[], b]
    ensures I16Value([]) == 0
  {
    var t := a + [Comma] + [Comma] + b;
    assert t[|a| + 2..] == b;
    LastCommaIs(t, |a| + 1);
    var u := t[..|a| + 1];
    assert u == a + [Comma];
    assert u[|a| + 1..] == [];
    LastCommaIs(u, |a|);
    assert u[..|a|] == a;
    I16ValueSaturates([]);
  }

  /** The arguments of `recoil.add`: `name)` then `{`, the joined values
      and `}`. */
  function AddArgs(name: seq<u8>, vs: seq<int>): seq<u8> {
    name + [CloseParen] + ([OpenBrace] + (Join(vs) + [CloseBrace]))
  }

  /** The name ends at the first ')' of the arguments. */
  lemma AddArgsName(name: seq<u8>, vs: seq<int>)
    requires CloseParen !in name
    ensures var args := AddArgs(name, vs);
      Position(args, CloseParen) == Some(|name|) && args[..|name|] == name
      && args[|name| + 1..] == [OpenBrace] + (Join(vs) + [CloseBrace])
  {
    var args := AddArgs(name, vs);
    var tail := [OpenBrace] + (Join(vs) + [CloseBrace]);
    PositionAfter(name, CloseParen, tail);
    assert args[..|name|] == name;
    assert args[|name| + 1..] == tail;
  }

  lemma JoinNoBrace(vs: seq<int>)
    ensures CloseBrace !in Join(vs)
  {
    var j := Join(vs);
    JoinChars(vs);
    forall i | 0 <= i < |j| ensures j[i] != CloseBrace {
      assert IsDigit(j[i]) || j[i] == Minus || j[i] == Comma;
    }
  }

  /** The values lie between the '{' and the first '}' after it. */
  lemma AddArgsBody(j: seq<u8>)
    requires CloseBrace !in j
    ensures Position([OpenBrace] + (j + [CloseBrace]), OpenBrace) == Some(0)
    ensures ([OpenBrace] + (j + [CloseBrace]))[1..] == j + [CloseBrace]
    ensures Position(j + [CloseBrace], CloseBrace) == Some(|j|) && (j + [CloseBrace])[..|j|] == j
  {
    assert j + [CloseBrace] == j + [CloseBrace] + [];
    PositionAfter(j, CloseBrace, []);
  }

  /** `{v1,...,vn}` reads back as the values. */
  lemma BracedStepsOfJoin(vs: seq<int>)
    requires |vs| <= MaxSteps
    requires forall k | 0 <= k < |vs| :: -0x7FFF <= vs[k] <= 0x7FFF
    ensures BracedSteps([OpenBrace] + (Join(vs) + [CloseBrace])) == Some(vs)
  {
    var j := Join(vs);
    JoinNoBrace(vs);
    AddArgsBody(j);
    PiecesOfJoin(vs);
    var pieces := Pieces(j);
    assert |pieces| == |vs|;
    assert BracedSteps([OpenBrace] + (j + [CloseBrace])) == Some(Values(pieces));
  }

  /** `recoil.add(name){v1,...,vn}` reads back as the name and the values,
      for up to 64 values in [-32767, 32767] and a name without ')'. */
  lemma RecoilAddOfText(name: seq<u8>, vs: seq<int>)
    requires CloseParen !in name && |vs| <= MaxSteps
    requires forall k | 0 <= k < |vs| :: -0x7FFF <= vs[k] <= 0x7FFF
    ensures RecoilAdd(AddPrefix + AddArgs(name, vs)) == Some((name, vs))
  {
    var args := AddArgs(name, vs);
    assert (AddPrefix + args)[|AddPrefix|..] == args;
    AddArgsName(name, vs);
    BracedStepsOfJoin(vs);
  }

  // ---------------------------------------------------------------------------
  // parse_recoil_name

  /** The name between the first '(' after the prefix and the next ')'. */
  function ParseRecoilName(line: seq<u8>, prefix: seq<u8>): (r: Option<seq<u8>>)
    ensures r.Some? ==> |line| >= |prefix| + 2 && CloseParen !in r.value
    ensures |line| < |prefix| + 2 || OpenParen !in line[|prefix|..] ==> r.None?
  {
    if |line| < |prefix| + 2 then None
    else
      var args := line[|prefix|..];
      match Position(args, OpenParen)
      case None => None
      case Some(open) =>
        var rest := args[open + 1..];
        match Position(rest, CloseParen)
        case None => None
        case Some(close) => Some(rest[..close])
  }

  /** `prefix(name)` followed by anything reads back as the name. */
  lemma RecoilNameOfText(prefix: seq<u8>, name: seq<u8>, rest: seq<u8>)
    requires CloseParen !in name
    ensures ParseRecoilName(prefix + [OpenParen] + name + [CloseParen] + rest, prefix) == Some(name)
  {
    var line := prefix + [OpenParen] + name + [CloseParen] + rest;
    var args := line[|prefix|..];
    assert args == [] + [OpenParen] + (name + [CloseParen] + rest);
    PositionAfter([], OpenParen, name + [CloseParen] + rest);
    assert args[1..] == name + [CloseParen] + rest;
    PositionAfter(name, CloseParen, rest);
    assert (name + [CloseParen] + rest)[..|name|] == name;
  }

  /** A line cut short, or without the parentheses, names nothing. */
  lemma RecoilNameMissing(prefix: seq<u8>, args: seq<u8>)
    requires CloseParen !in args
    ensures ParseRecoilName(prefix + args, prefix) == None
  {
    var line := prefix + args;
    assert line[|prefix|..] == args;
    if |line| >= |prefix| + 2 {
      match Position(args, OpenParen)
      case None =>
      case Some(open) =>
        var rest := args[open + 1..];
        assert CloseParen !in rest by {
          forall i | 0 <= i < |rest| ensures rest[i] != CloseParen {
            assert rest[i] == args[open + 1 + i];
          }
        }
    }
  }
}
