/** The ASMap sanity check: a linear scan with a stack of jump targets that
    accepts exactly the layouts of admissible tries. */
module AsMapChecker {
  import opened Bits
  import opened PrefixCode
  import opened AsMapTrie
  import opened AsMapLayout
  import opened AsMapDecode

  /** A pending branch: where it starts and how many address bits it may read. */
  datatype Target = Target(start: nat, bits: nat)

  /** The rest of the stream from `pos` is `cur`, then one trie for each pending
      target from the top of the stack down, then the padding. */
  ghost predicate Fits(s: seq<bool>, pos: nat, cur: Trie, bits: nat, previous: nat, short: bool,
                       jumps: seq<Target>, rest: seq<Trie>)
    decreases |jumps|
  {
    && LaidOut(s, pos, cur)
    && Admissible(cur, bits, previous, short)
    && |rest| == |jumps|
    && var end := EndOf(pos, cur); Continues(s, end, jumps, rest)
  }

  ghost predicate Continues(s: seq<bool>, end: nat, jumps: seq<Target>, rest: seq<Trie>)
    requires |rest| == |jumps|
    decreases |jumps|, 0
  {
    if jumps == [] then |s| - end <= 7 && ZeroFrom(s, end)
    else
      var top := |jumps| - 1;
      jumps[top].start == end
      && Fits(s, end, rest[top], jumps[top].bits, 1, false, jumps[..top], rest[..top])
  }

  /** Some completion exists from this checker state. */
  ghost predicate Resumes(s: seq<bool>, pos: nat, bits: nat, previous: nat, short: bool, jumps: seq<Target>) {
    exists cur, rest :: Fits(s, pos, cur, bits, previous, short, jumps, rest)
  }

  /** The stream is the layout of some admissible trie. */
  ghost predicate Sane(s: seq<bool>, bits: nat) {
    exists t :: IsMap(s, bits, t)
  }

  lemma StartResumes(s: seq<bool>, bits: nat)
    ensures Sane(s, bits) <==> Resumes(s, 0, bits, 1, false, [])
  {
    hide Layout;
    if t :| IsMap(s, bits, t) {
      assert Fits(s, 0, t, bits, 1, false, [], []);
    }
    if cur, rest :| Fits(s, 0, cur, bits, 1, false, [], rest) {
      assert IsMap(s, bits, cur);
    }
  }

  /** Where the pending tries end: below every pending target there is room. */
  lemma FitsAhead(s: seq<bool>, pos: nat, cur: Trie, bits: nat, previous: nat, short: bool,
                  jumps: seq<Target>, rest: seq<Trie>)
    requires Fits(s, pos, cur, bits, previous, short, jumps, rest)
    ensures pos < EndOf(pos, cur) <= |s|
    ensures jumps != [] ==> jumps[|jumps| - 1].start == EndOf(pos, cur)
  {
    Unfold(s, pos, cur);
  }

  /** The opcode at `pos` decides the shape of the current trie. */
  lemma FitsOpcode(s: seq<bool>, pos: nat, cur: Trie, bits: nat, previous: nat, short: bool,
                   jumps: seq<Target>, rest: seq<Trie>, op: nat)
    requires Fits(s, pos, cur, bits, previous, short, jumps, rest)
    requires op < 4 && At(s, pos, TypeCode(op))
    ensures Opcode(cur) == op
  {
    hide TypeCode, AsnCode, MatchCode, JumpCode, At, Layout;
    Unfold(s, pos, cur);
    TypeUnique(s, pos, op, Opcode(cur));
  }

  // ----- One step of the scan -----

  lemma StepReturn(s: seq<bool>, pos: nat, bits: nat, previous: nat, short: bool, jumps: seq<Target>, asn: nat)
    requires 1 <= asn < ASN_LIMIT && Instruction(s, pos, 0, AsnCode(asn))
    ensures var end := AfterHead(pos, Return(asn));
      Resumes(s, pos, bits, previous, short, jumps) <==>
        && previous != 3
        && (if jumps == [] then |s| - end <= 7 && ZeroFrom(s, end)
            else var top := jumps[|jumps| - 1];
              top.start == end && Resumes(s, end, top.bits, 1, false, jumps[..|jumps| - 1]))
  {
    hide TypeCode, AsnCode, At, Layout, ZeroFrom;
    var t := Return(asn);
    var end := AfterHead(pos, t);
    Unfold(s, pos, t);
    if cur, rest :| Fits(s, pos, cur, bits, previous, short, jumps, rest) {
      FitsOpcode(s, pos, cur, bits, previous, short, jumps, rest, 0);
      TrieUnique(s, pos, cur, t);
      if jumps != [] {
        var top := |jumps| - 1;
        assert Fits(s, end, rest[top], jumps[top].bits, 1, false, jumps[..top], rest[..top]);
      }
    }
    if previous != 3 && jumps == [] && |s| - end <= 7 && ZeroFrom(s, end) {
      assert Fits(s, pos, t, bits, previous, short, jumps, []);
    }
    if previous != 3 && jumps != [] && jumps[|jumps| - 1].start == end {
      var top := |jumps| - 1;
      if cur, rest :| Fits(s, end, cur, jumps[top].bits, 1, false, jumps[..top], rest) {
        assert (rest + [cur])[..top] == rest;
        assert Fits(s, pos, t, bits, previous, short, jumps, rest + [cur]);
      }
    }
  }

  lemma StepDefault(s: seq<bool>, pos: nat, bits: nat, previous: nat, short: bool, jumps: seq<Target>, asn: nat)
    requires 1 <= asn < ASN_LIMIT && Instruction(s, pos, 3, AsnCode(asn))
    ensures Resumes(s, pos, bits, previous, short, jumps)
      <==> previous != 3 && Resumes(s, pos + |TypeCode(3)| + |AsnCode(asn)|, bits, 3, false, jumps)
  {
    hide TypeCode, AsnCode, At, Layout, ZeroFrom;
    var after := pos + |TypeCode(3)| + |AsnCode(asn)|;
    if cur, rest :| Fits(s, pos, cur, bits, previous, short, jumps, rest) {
      FitsOpcode(s, pos, cur, bits, previous, short, jumps, rest, 3);
      Unfold(s, pos, cur);
      AsnUnique(s, pos + |TypeCode(3)|, asn, cur.asn);
      assert Fits(s, after, cur.next, bits, 3, false, jumps, rest);
    }
    if next, rest :| previous != 3 && Fits(s, after, next, bits, 3, false, jumps, rest) {
      Unfold(s, pos, Default(asn, next));
      assert Fits(s, pos, Default(asn, next), bits, previous, short, jumps, rest);
    }
  }

  lemma StepMatch(s: seq<bool>, pos: nat, bits: nat, previous: nat, short: bool, jumps: seq<Target>, p: seq<bool>)
    requires 1 <= |p| <= 8 && Instruction(s, pos, 2, MatchCode(p))
    ensures Resumes(s, pos, bits, previous, short, jumps)
      <==> (&& |p| <= bits && !(|p| < 8 && short && previous == 2)
            && Resumes(s, pos + |TypeCode(2)| + |MatchCode(p)|, bits - |p|, 2, |p| < 8, jumps))
  {
    hide TypeCode, MatchCode, At, Layout, ZeroFrom;
    var after := pos + |TypeCode(2)| + |MatchCode(p)|;
    if cur, rest :| Fits(s, pos, cur, bits, previous, short, jumps, rest) {
      FitsOpcode(s, pos, cur, bits, previous, short, jumps, rest, 2);
      Unfold(s, pos, cur);
      MatchUnique(s, pos + |TypeCode(2)|, p, cur.pattern);
      assert Fits(s, after, cur.next, bits - |p|, 2, |p| < 8, jumps, rest);
    }
    if |p| <= bits && !(|p| < 8 && short && previous == 2) {
      var left, partial := bits - |p|, |p| < 8;
      if next, rest :| Fits(s, after, next, left, 2, partial, jumps, rest) {
        Unfold(s, pos, Match(p, next));
        assert Fits(s, pos, Match(p, next), bits, previous, short, jumps, rest);
      }
    }
  }

  /** A jump starts the zero branch and leaves the one branch pending. */
  lemma StepJump(s: seq<bool>, pos: nat, bits: nat, previous: nat, short: bool, jumps: seq<Target>, d: nat)
    requires 17 <= d < JUMP_LIMIT && Instruction(s, pos, 1, JumpCode(d))
    ensures var after := pos + |TypeCode(1)| + |JumpCode(d)|;
      Resumes(s, pos, bits, previous, short, jumps) <==>
        && bits > 0 && d <= |s| - after
        && (jumps != [] ==> after + d < jumps[|jumps| - 1].start)
        && Resumes(s, after, bits - 1, 1, false, jumps + [Target(after + d, bits - 1)])
  {
    hide TypeCode, JumpCode, At, Layout, ZeroFrom, Fits;
    var after := pos + |TypeCode(1)| + |JumpCode(d)|;
    if cur, rest :| Fits(s, pos, cur, bits, previous, short, jumps, rest) {
      StepIntoJump(s, pos, bits, previous, short, jumps, d, cur, rest);
    }
    if bits > 0 {
      var left, pushed := bits - 1, jumps + [Target(after + d, bits - 1)];
      if zero, all :| Fits(s, after, zero, left, 1, false, pushed, all) {
        StepOutOfJump(s, pos, bits, previous, short, jumps, d, zero, all);
      }
    }
  }

  lemma StepIntoJump(s: seq<bool>, pos: nat, bits: nat, previous: nat, short: bool, jumps: seq<Target>, d: nat,
                     cur: Trie, rest: seq<Trie>)
    requires 17 <= d < JUMP_LIMIT && Instruction(s, pos, 1, JumpCode(d))
    requires Fits(s, pos, cur, bits, previous, short, jumps, rest)
    ensures var after := pos + |TypeCode(1)| + |JumpCode(d)|;
      && bits > 0 && d <= |s| - after && cur.Jump?
      && (jumps != [] ==> after + d < jumps[|jumps| - 1].start)
      && Fits(s, after, cur.zero, bits - 1, 1, false, jumps + [Target(after + d, bits - 1)], rest + [cur.one])
  {
    hide TypeCode, JumpCode, At, Layout, ZeroFrom;
    var after := pos + |TypeCode(1)| + |JumpCode(d)|;
    FitsOpcode(s, pos, cur, bits, previous, short, jumps, rest, 1);
    FitsAhead(s, pos, cur, bits, previous, short, jumps, rest);
    Unfold(s, pos, cur);
    JumpUnique(s, pos + |TypeCode(1)|, d, |Layout(cur.zero)|);
    Unfold(s, after + d, cur.one);
    var pushed := jumps + [Target(after + d, bits - 1)];
    assert pushed[..|jumps|] == jumps && (rest + [cur.one])[..|jumps|] == rest;
    assert Fits(s, after + d, cur.one, bits - 1, 1, false, jumps, rest);
    assert Continues(s, after + d, pushed, rest + [cur.one]);
  }

  lemma StepOutOfJump(s: seq<bool>, pos: nat, bits: nat, previous: nat, short: bool, jumps: seq<Target>, d: nat,
                      zero: Trie, all: seq<Trie>)
    requires bits > 0 && 17 <= d < JUMP_LIMIT && Instruction(s, pos, 1, JumpCode(d))
    requires var after := pos + |TypeCode(1)| + |JumpCode(d)|;
      Fits(s, after, zero, bits - 1, 1, false, jumps + [Target(after + d, bits - 1)], all)
    ensures |all| == |jumps| + 1
    ensures Fits(s, pos, Jump(zero, all[|jumps|]), bits, previous, short, jumps, all[..|jumps|])
  {
    hide TypeCode, JumpCode, At, Layout, ZeroFrom;
    var after := pos + |TypeCode(1)| + |JumpCode(d)|;
    var pushed := jumps + [Target(after + d, bits - 1)];
    var one, rest := all[|jumps|], all[..|jumps|];
    assert pushed[..|jumps|] == jumps;
    assert Continues(s, EndOf(after, zero), pushed, all);
    assert Fits(s, after + d, one, bits - 1, 1, false, jumps, rest);
    assert |Layout(zero)| == d;
    Unfold(s, pos, Jump(zero, one));
  }

  // ----- What every resumable state shows -----

  lemma ResumesAhead(s: seq<bool>, pos: nat, bits: nat, previous: nat, short: bool, jumps: seq<Target>)
    requires Resumes(s, pos, bits, previous, short, jumps)
    ensures pos < |s| && (jumps != [] ==> pos < jumps[|jumps| - 1].start)
    ensures exists op: nat :: op < 4 && At(s, pos, TypeCode(op))
  {
    hide TypeCode, AsnCode, MatchCode, JumpCode, At, Layout;
    var cur, rest :| Fits(s, pos, cur, bits, previous, short, jumps, rest);
    FitsAhead(s, pos, cur, bits, previous, short, jumps, rest);
    Unfold(s, pos, cur);
    assert At(s, pos, TypeCode(Opcode(cur)));
  }

  lemma ResumesArgument(s: seq<bool>, pos: nat, bits: nat, previous: nat, short: bool, jumps: seq<Target>, op: nat)
    requires Resumes(s, pos, bits, previous, short, jumps) && op < 4 && At(s, pos, TypeCode(op))
    ensures op == 0 || op == 3 ==>
      exists asn: nat :: 1 <= asn < ASN_LIMIT && At(s, pos + |TypeCode(op)|, AsnCode(asn))
    ensures op == 1 ==> exists d: nat :: 17 <= d < JUMP_LIMIT && At(s, pos + |TypeCode(op)|, JumpCode(d))
    ensures op == 2 ==> exists p: seq<bool> :: 1 <= |p| <= 8 && At(s, pos + |TypeCode(op)|, MatchCode(p))
  {
    hide TypeCode, AsnCode, MatchCode, JumpCode, At, Layout;
    var cur, rest :| Fits(s, pos, cur, bits, previous, short, jumps, rest);
    FitsOpcode(s, pos, cur, bits, previous, short, jumps, rest, op);
    Unfold(s, pos, cur);
  }

  // ----- The scan -----

  method AllZeroFrom(data: seq<byte>, position: nat) returns (ok: bool)
    requires position <= |StreamBits(data)|
    ensures ok <==> ZeroFrom(StreamBits(data), position)
  {
    hide StreamBits;
    var pos := position;
    while pos != 8 * |data|
      invariant position <= pos <= |StreamBits(data)|
      invariant forall i :: position <= i < pos ==> !StreamBits(data)[i]
      decreases |StreamBits(data)| - pos
    {
      var bit;
      bit, pos := ReadBitLe(data, pos);
      if bit != Some(false) {
        return false;
      }
    }
    return true;
  }

  /** The check accepts a program exactly when it is the layout of an admissible trie. */
  method SanityCheck(data: seq<byte>, addressBits: nat) returns (ok: bool)
    ensures ok <==> Sane(StreamBits(data), addressBits)
  {
    hide StreamBits, Sane, Resumes, At, TypeCode, AsnCode, MatchCode, JumpCode, ZeroFrom, Log2, PatternOf, Pow2;
    ghost var s := StreamBits(data);
    var end := 8 * |data|;
    var bits := addressBits;
    var position := 0;
    var jumps: seq<Target> := [];
    var previous := 1;
    var hadIncompleteMatch := false;
    StartResumes(s, bits);
    while position != end
      invariant position <= |s|
      invariant Sane(s, addressBits) <==>
        Resumes(s, position, bits, previous, previous == 2 && hadIncompleteMatch, jumps)
      decreases |s| - position
    {
      ghost var start, short := position, previous == 2 && hadIncompleteMatch;
      if Resumes(s, position, bits, previous, short, jumps) {
        ResumesAhead(s, position, bits, previous, short, jumps);
      }
      if jumps != [] && position >= jumps[|jumps| - 1].start {
        return false;
      }
      var opcode;
      opcode, position := DecodeType(data, position);
      if opcode.None? {
        return false;
      }
      TypeCodeNonEmpty(opcode.value);
      if Resumes(s, start, bits, previous, short, jumps) {
        ResumesArgument(s, start, bits, previous, short, jumps, opcode.value);
      }
      match opcode.value
      case 0 =>
        var asn;
        if previous == 3 {
          AsnAfterDefault(s, start, bits, previous, short, jumps, 0);
          return false;
        }
        asn, position := DecodeAsn(data, position);
        if asn.None? {
          return false;
        }
        StepReturn(s, start, bits, previous, short, jumps, asn.value);
        if jumps == [] {
          if end - position > 7 {
            return false;
          }
          ok := AllZeroFrom(data, position);
          return;
        }
        var target := jumps[|jumps| - 1];
        jumps := jumps[..|jumps| - 1];
        if position != target.start {
          return false;
        }
        bits := target.bits;
        previous := 1;
      case 1 =>
        var jump;
        jump, position := DecodeJump(data, position);
        if jump.None? {
          return false;
        }
        StepJump(s, start, bits, previous, short, jumps, jump.value);
        if jump.value > end - position || bits == 0 {
          return false;
        }
        bits := bits - 1;
        var target := position + jump.value;
        if jumps != [] && target >= jumps[|jumps| - 1].start {
          return false;
        }
        jumps := jumps + [Target(target, bits)];
        previous := 1;
      case 2 =>
        var value;
        value, position := DecodeMatch(data, position);
        if value.None? {
          return false;
        }
        var matchLength := Log2(value.value);
        assert |PatternOf(value.value)| == matchLength by { PatternLength(value.value); }
        StepMatch(s, start, bits, previous, short, jumps, PatternOf(value.value));
        if previous != 2 {
          hadIncompleteMatch := false;
        }
        if matchLength < 8 && hadIncompleteMatch {
          return false;
        }
        if bits < matchLength {
          return false;
        }
        bits := bits - matchLength;
        hadIncompleteMatch := matchLength < 8;
        previous := 2;
      case _ =>
        var asn;
        if previous == 3 {
          AsnAfterDefault(s, start, bits, previous, short, jumps, 3);
          return false;
        }
        asn, position := DecodeAsn(data, position);
        if asn.None? {
          return false;
        }
        StepDefault(s, start, bits, previous, short, jumps, asn.value);
        previous := 3;
    }
    if Resumes(s, position, bits, previous, previous == 2 && hadIncompleteMatch, jumps) {
      ResumesAhead(s, position, bits, previous, previous == 2 && hadIncompleteMatch, jumps);
    }
    return false;
  }

  lemma PatternLength(v: nat)
    requires v > 0
    ensures |PatternOf(v)| == Log2(v)
  {
  }

  /** Neither a return nor another default may follow a default. */
  lemma AsnAfterDefault(s: seq<bool>, pos: nat, bits: nat, previous: nat, short: bool, jumps: seq<Target>, op: nat)
    requires previous == 3 && (op == 0 || op == 3) && At(s, pos, TypeCode(op))
    ensures !Resumes(s, pos, bits, previous, short, jumps)
  {
    hide TypeCode, AsnCode, MatchCode, JumpCode, At, Layout;
    if cur, rest :| Fits(s, pos, cur, bits, previous, short, jumps, rest) {
      FitsOpcode(s, pos, cur, bits, previous, short, jumps, rest, op);
    }
  }
}
