/** The D-pad directions and their four-bit codes (DPad.kt). */
module DPads {
  import opened Bytes
  import opened Outcomes

  datatype DPad =
    | NotPressed | Up | UpRight | Right | DownRight | Down | DownLeft | Left | UpLeft
    | Padding  // the code an all-0xFF word decodes to

  /** The `code` each enum entry carries. */
  function Code(d: DPad): int
  {
    match d
    case NotPressed => 0
    case Up => 1
    case UpRight => 2
    case Right => 3
    case DownRight => 4
    case Down => 5
    case DownLeft => 6
    case Left => 7
    case UpLeft => 8
    case Padding => 15
  }

  /** `DPad.values()`: the entries in declaration order. */
  const VALUES: seq<DPad> :=
    [NotPressed, Up, UpRight, Right, DownRight, Down, DownLeft, Left, UpLeft, Padding]

  /** The codes that some direction carries. */
  predicate IsCode(c: int)
  {
    0 <= c <= 8 || c == 15
  }

  /** `values().first { it.code == c }`: the earliest entry of `vs` whose code is `c`, if any. */
  function FirstWithCode(vs: seq<DPad>, c: int): (r: Option<DPad>)
    ensures r.Some? ==> r.value in vs && Code(r.value) == c
    ensures r.None? <==> forall d | d in vs :: Code(d) != c
  {
    if vs == [] then None
    else if Code(vs[0]) == c then Some(vs[0])
    else FirstWithCode(vs[1..], c)
  }

  /** `first` finds the entry at the earliest index whose code is `c`. */
  lemma {:induction false} FirstWithCodeAt(vs: seq<DPad>, c: int, i: nat)
    requires i < |vs| && Code(vs[i]) == c
    requires forall k | 0 <= k < i :: Code(vs[k]) != c
    ensures FirstWithCode(vs, c) == Some(vs[i])
    decreases i
  {
    if i > 0 {
      forall k | 0 <= k < i - 1
        ensures Code(vs[1..][k]) != c
      {
        assert vs[1..][k] == vs[k + 1];
      }
      FirstWithCodeAt(vs[1..], c, i - 1);
    }
  }

  /** `first` finds nothing when no index holds an entry with code `c`. */
  lemma FirstWithCodeNone(vs: seq<DPad>, c: int)
    requires forall k | 0 <= k < |vs| :: Code(vs[k]) != c
    ensures FirstWithCode(vs, c) == None
  {
    forall d | d in vs
      ensures Code(d) != c
    {
      var k :| 0 <= k < |vs| && vs[k] == d;
    }
  }

  /** Decoding a code; `None` is the NoSuchElementException of `first`. */
  function Decode(c: int): Option<DPad>
  {
    FirstWithCode(VALUES, c)
  }

  /** There are exactly ten directions, each listed once; their codes are 0..8 and 15. */
  lemma {:induction false} ValuesEnumerateDirections()
    ensures |VALUES| == 10
    ensures forall d: DPad :: d in VALUES
    ensures forall i | 0 <= i < |VALUES| :: Code(VALUES[i]) == (if i < 9 then i else 15)
  {
    forall d: DPad
      ensures d in VALUES
    {
      match d
      case NotPressed => assert VALUES[0] == d;
      case Up => assert VALUES[1] == d;
      case UpRight => assert VALUES[2] == d;
      case Right => assert VALUES[3] == d;
      case DownRight => assert VALUES[4] == d;
      case Down => assert VALUES[5] == d;
      case DownLeft => assert VALUES[6] == d;
      case Left => assert VALUES[7] == d;
      case UpLeft => assert VALUES[8] == d;
      case Padding => assert VALUES[9] == d;
    }
  }

  /**
   * Every code is a four-bit value in 0..8 or 15, so as a byte masking it with 0x0F changes
   * nothing and its high nibble is clear.
   */
  lemma CodeFitsNibble(d: DPad)
    ensures IsCode(Code(d))
    ensures 0 <= Code(d) < 16
    ensures ToByte(Code(d)) & 0x0F == ToByte(Code(d))
    ensures ToByte(Code(d)) & 0xF0 == 0
  {
    var b := ToByte(Code(d));
    assert b < 16;
  }

  /** Codes are pairwise distinct. */
  lemma CodeInjective(d: DPad, e: DPad)
    ensures Code(d) == Code(e) <==> d == e
  {
  }

  /** Decoding inverts `Code`. */
  lemma DecodeCode(d: DPad)
    ensures Decode(Code(d)) == Some(d)
  {
    ValuesEnumerateDirections();
    var r := Decode(Code(d));
    assert r.Some?;
    CodeInjective(r.value, d);
  }

  /** Decoding succeeds exactly on the codes of the enum; 9..14 and anything else fail. */
  lemma DecodeDefined(c: int)
    ensures Decode(c).Some? <==> IsCode(c)
    ensures Decode(c).Some? ==> Code(Decode(c).value) == c
  {
    if IsCode(c) {
      var i := if c <= 8 then c else 9;
      assert Code(VALUES[i]) == c;
    } else {
      forall d | d in VALUES
        ensures Code(d) != c
      {
        CodeFitsNibble(d);
      }
    }
  }
}
