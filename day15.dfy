/** Day 15 (Lens Library): the HASH function over the comma-separated
    initialisation sequence, and the 256-box hash table of lenses in which a
    removed lens leaves an empty slot behind (a tombstone). */
module Day15 {
  import opened Common
  import opened Text

  /** `c as u8`: a character truncated to its low eight bits. */
  function Byte(c: char): (b: nat)
    ensures b < 256
  {
    (c as int) % 256
  }

  /** HASH: starting from 0, each byte is added, the sum multiplied by 17 and
      reduced modulo 256. */
  function Hash(s: string): (h: nat)
    ensures h < 256
    ensures s == [] ==> h == 0
  {
    if s == [] then 0 else 17 * (Hash(s[..|s| - 1]) + Byte(s[|s| - 1])) % 256
  }

  /** HASH is a left fold: hashing a longer string continues from the hash
      of its prefix. */
  lemma {:induction false} HashConcat(s: string, t: string)
    ensures Hash(s + t) == HashFrom(Hash(s), t)
    decreases |t|
  {
    if t == [] {
      assert s + t == s;
    } else {
      assert (s + t)[..|s + t| - 1] == s + t[..|t| - 1];
      HashConcat(s, t[..|t| - 1]);
    }
  }

  /** The HASH fold started from an arbitrary value `h`. */
  function HashFrom(h: nat, t: string): nat
  {
    if t == [] then h else 17 * (HashFrom(h, t[..|t| - 1]) + Byte(t[|t| - 1])) % 256
  }

  /** The steps are the comma-separated pieces of the first line; without a
      line the program panics. */
  function Steps(lines: seq<string>): (r: Option<seq<string>>)
    ensures r.Some? <==> |lines| > 0
    ensures r.Some? ==> |r.value| >= 1 && forall k :: 0 <= k < |r.value| ==> ',' !in r.value[k]
  {
    if |lines| == 0 then None else Some(Split(lines[0], ','))
  }

  function SumHashes(steps: seq<string>): nat
  {
    if steps == [] then 0 else SumHashes(steps[..|steps| - 1]) + Hash(steps[|steps| - 1])
  }

  /** Part 1: the sum of the hashes of all steps. */
  function Part1(lines: seq<string>): (r: Option<nat>)
    ensures r.Some? <==> |lines| > 0
    ensures r.Some? ==> r.value < 256 * |Split(lines[0], ',')|
  {
    match Steps(lines)
    case None => None
    case Some(steps) => SumHashesBound(steps); Some(SumHashes(steps))
  }

  lemma {:induction false} SumHashesBound(steps: seq<string>)
    ensures SumHashes(steps) <= 255 * |steps|
    decreases |steps|
  {
    if steps != [] {
      SumHashesBound(steps[..|steps| - 1]);
    }
  }

  // ---------------------------------------------------------------------
  // Part 2: the boxes
  // ---------------------------------------------------------------------

  datatype Lens = Lens(name: string, focal: nat)

  /** A box is a row of slots; `None` is a removed lens. */
  type Box = seq<Option<Lens>>

  datatype Step = Remove(name: string) | Insert(name: string, focal: nat)

  /** A step is split on `-` and `=`: the first piece is the name, and the
      second piece is empty for a removal and a focal length otherwise. A
      step with no second piece, or a focal length that is not a number,
      panics. */
  function ParseStep(s: string): Option<Step>
  {
    var pieces := SplitOn(s, {'-', '='});
    if |pieces| < 2 then None
    else if pieces[1] == [] then Some(Remove(pieces[0]))
    else
      match ParseNat(pieces[1])
      case None => None
      case Some(f) => Some(Insert(pieces[0], f))
  }

  predicate PlainName(name: string)
  {
    forall k :: 0 <= k < |name| ==> name[k] != '-' && name[k] != '='
  }

  /** `name-` reads as a removal and `name=f` as an insertion of focal
      length f. */
  lemma ParseStepRoundTrip(name: string, f: nat)
    requires PlainName(name)
    ensures ParseStep(name + "-") == Some(Remove(name))
    ensures ParseStep(name + "=" + NatToDecimal(f)) == Some(Insert(name, f))
  {
    SplitOnFirst(name, '-', [], {'-', '='});
    assert name + "-" == name + ['-'] + [];
    var digits := NatToDecimal(f);
    SplitOnFirst(name, '=', digits, {'-', '='});
    assert name + "=" + digits == name + ['='] + digits;
    SplitOnNone(digits, {'-', '='});
    NatToDecimalRoundTrip(f);
  }

  function ParseSteps(steps: seq<string>): (r: Option<seq<Step>>)
    ensures r.Some? ==> |r.value| == |steps|
    ensures r.Some? <==> forall k :: 0 <= k < |steps| ==> ParseStep(steps[k]).Some?
    ensures r.Some? ==> forall k :: 0 <= k < |steps| ==> r.value[k] == ParseStep(steps[k]).value
  {
    if steps == [] then Some([])
    else
      match ParseSteps(steps[..|steps| - 1])
      case None => None
      case Some(init) =>
        match ParseStep(steps[|steps| - 1])
        case None => None
        case Some(st) => Some(init + [st])
  }

  predicate Holds(slot: Option<Lens>, name: string)
  {
    slot.Some? && slot.value.name == name
  }

  /** The index of the first live slot of `b` holding `name`. */
  function FirstWith(b: Box, name: string): (r: Option<nat>)
    ensures r.Some? ==> r.value < |b| && Holds(b[r.value], name)
    ensures r.Some? ==> forall k :: 0 <= k < r.value ==> !Holds(b[k], name)
    ensures r.None? ==> forall k :: 0 <= k < |b| ==> !Holds(b[k], name)
  {
    if b == [] then None
    else if Holds(b[0], name) then Some(0)
    else
      match FirstWith(b[1..], name)
      case None => None
      case Some(k) => Some(k + 1)
  }

  /** What `modify` leaves in a box: the first live slot holding `name`
      overwritten by `value`, or the box unchanged when there is none. */
  function Modified(b: Box, name: string, value: Option<Lens>): Box
  {
    match FirstWith(b, name)
    case None => b
    case Some(k) => b[k := value]
  }

  /** `modify`: scans box `hash` for the first live slot holding `name`,
      overwrites it with `value` and reports whether it found one. No other
      slot and no other box changes. */
  method Modify(boxes: array<Box>, hash: nat, name: string, value: Option<Lens>) returns (found: bool)
    requires hash < boxes.Length
    modifies boxes
    ensures found <==> FirstWith(old(boxes[hash]), name).Some?
    ensures boxes[..] == old(boxes[..])[hash := Modified(old(boxes[hash]), name, value)]
  {
    var b := boxes[hash];
    for j := 0 to |b|
      invariant forall k :: 0 <= k < j ==> !Holds(b[k], name)
    {
      if b[j].Some? && b[j].value.name == name {
        assert FirstWith(b, name) == Some(j) by { FirstWithUnique(b, name, j); }
        boxes[hash] := b[j := value];
        return true;
      }
    }
    return false;
  }

  /** A live slot with `name` preceded by none is the first one. */
  lemma FirstWithUnique(b: Box, name: string, j: nat)
    requires j < |b| && Holds(b[j], name)
    requires forall k :: 0 <= k < j ==> !Holds(b[k], name)
    ensures FirstWith(b, name) == Some(j)
  {
  }

  /** One step on the whole row of boxes, as the loop body of part 2 does it. */
  function Apply(bs: seq<Box>, st: Step): (r: seq<Box>)
    requires |bs| == 256
    ensures |r| == 256
  {
    var h := Hash(st.name);
    match st
    case Remove(name) => bs[h := Modified(bs[h], name, None)]
    case Insert(name, f) =>
      if FirstWith(bs[h], name).Some? then bs[h := Modified(bs[h], name, Some(Lens(name, f)))]
      else bs[h := bs[h] + [Some(Lens(name, f))]]
  }

  function ApplyAll(bs: seq<Box>, steps: seq<Step>): (r: seq<Box>)
    requires |bs| == 256
    ensures |r| == 256
  {
    if steps == [] then bs else Apply(ApplyAll(bs, steps[..|steps| - 1]), steps[|steps| - 1])
  }

  function EmptyBoxes(): (r: seq<Box>)
    ensures |r| == 256 && forall b :: 0 <= b < 256 ==> r[b] == []
  {
    seq(256, _ => [])
  }

  // ---------------------------------------------------------------------
  // Invariants of the table
  // ---------------------------------------------------------------------

  /** 256 boxes; every live lens sits in the box its name hashes to; no box
      holds two live lenses with the same name. */
  predicate Valid(bs: seq<Box>)
  {
    |bs| == 256
    && (forall b, k :: 0 <= b < 256 && 0 <= k < |bs[b]| && bs[b][k].Some? ==> Hash(bs[b][k].value.name) == b)
    && (forall b, k, k' :: 0 <= b < 256 && 0 <= k < k' < |bs[b]| && bs[b][k].Some? && bs[b][k'].Some?
          ==> bs[b][k].value.name != bs[b][k'].value.name)
  }

  /** Every step keeps the table valid. */
  lemma ApplyValid(bs: seq<Box>, st: Step)
    requires Valid(bs)
    ensures Valid(Apply(bs, st))
  {
    var h := Hash(st.name);
    var r := Apply(bs, st);
    var fw := FirstWith(bs[h], st.name);
    if fw.None? {
      assert st.Insert? ==> r[h] == bs[h] + [Some(Lens(st.name, st.focal))];
    }
    forall b, k, k' | 0 <= b < 256 && 0 <= k < k' < |r[b]| && r[b][k].Some? && r[b][k'].Some?
      ensures r[b][k].value.name != r[b][k'].value.name
    {
      if b == h && fw.Some? {
        assert r[b][k] == bs[b][k] || k == fw.value;
        assert r[b][k'] == bs[b][k'] || k' == fw.value;
      }
    }
  }

  lemma {:induction false} ApplyAllValid(bs: seq<Box>, steps: seq<Step>)
    requires Valid(bs)
    ensures Valid(ApplyAll(bs, steps))
    decreases |steps|
  {
    if steps != [] {
      ApplyAllValid(bs, steps[..|steps| - 1]);
      ApplyValid(ApplyAll(bs, steps[..|steps| - 1]), steps[|steps| - 1]);
    }
  }

  /** The 256 boxes part 2 starts from are valid, and so are the boxes after
      any sequence of steps: every lens sits in the box its label hashes
      to, and no label occurs twice in a box. */
  lemma StepsValid(steps: seq<Step>)
    ensures Valid(EmptyBoxes())
    ensures Valid(ApplyAll(EmptyBoxes(), steps))
  {
    ApplyAllValid(EmptyBoxes(), steps);
  }

  /** The lens currently stored for `name`, if any. */
  function Lookup(bs: seq<Box>, name: string): Option<nat>
    requires |bs| == 256
  {
    match FirstWith(bs[Hash(name)], name)
    case None => None
    case Some(k) => Some(bs[Hash(name)][k].value.focal)
  }

  /** After `name=f` the table maps `name` to f, and after `name-` it
      holds no live lens with that name anywhere. */
  lemma ApplyLookup(bs: seq<Box>, st: Step)
    requires Valid(bs)
    ensures st.Insert? ==> Lookup(Apply(bs, st), st.name) == Some(st.focal)
    ensures st.Remove? ==> forall b, k :: 0 <= b < 256 && 0 <= k < |Apply(bs, st)[b]| ==> !Holds(Apply(bs, st)[b][k], st.name)
  {
    var h := Hash(st.name);
    var r := Apply(bs, st);
    var fw := FirstWith(bs[h], st.name);
    match st
    case Insert(name, f) =>
      if fw.Some? {
        assert FirstWith(r[h], name) == fw by { FirstWithUnique(r[h], name, fw.value); }
      } else {
        assert FirstWith(r[h], name) == Some(|bs[h]|) by { FirstWithUnique(r[h], name, |bs[h]|); }
      }
    case Remove(name) =>
  }

  /** A step touches only the box its name hashes to. */
  lemma ApplyFrame(bs: seq<Box>, st: Step, b: nat)
    requires |bs| == 256 && b < 256 && b != Hash(st.name)
    ensures Apply(bs, st)[b] == bs[b]
  {
  }

  // ---------------------------------------------------------------------
  // The tombstone table against a table that deletes
  // ---------------------------------------------------------------------

  /** The live lenses of a box in order (`filter_map`). */
  function Live(b: Box): (r: seq<Lens>)
    ensures |r| <= |b|
  {
    if b == [] then []
    else if b[0].Some? then [b[0].value] + Live(b[1..])
    else Live(b[1..])
  }

  /** Reference semantics of a box without tombstones: removal deletes the
      first lens with the name. */
  function DeleteName(ls: seq<Lens>, name: string): seq<Lens>
  {
    if ls == [] then []
    else if ls[0].name == name then ls[1..]
    else [ls[0]] + DeleteName(ls[1..], name)
  }

  /** Reference semantics of an insertion: replace the first lens with the
      name where it stands, or append. */
  function PutName(ls: seq<Lens>, name: string, f: nat): seq<Lens>
  {
    if ls == [] then [Lens(name, f)]
    else if ls[0].name == name then [Lens(name, f)] + ls[1..]
    else [ls[0]] + PutName(ls[1..], name, f)
  }

  /** Leaving a tombstone behaves, for the live lenses, like deleting. */
  lemma {:induction false} LiveRemove(b: Box, name: string)
    ensures Live(Modified(b, name, None)) == DeleteName(Live(b), name)
    decreases |b|
  {
    if b != [] {
      LiveRemove(b[1..], name);
      var fw := FirstWith(b[1..], name);
      if !Holds(b[0], name) && fw.Some? {
        assert Modified(b, name, None)[1..] == Modified(b[1..], name, None);
      }
    }
  }

  /** Overwriting the first slot with the name, or appending when there is
      none, behaves like the reference insertion. */
  lemma {:induction false} LiveInsert(b: Box, name: string, f: nat)
    ensures Live(if FirstWith(b, name).Some? then Modified(b, name, Some(Lens(name, f)))
                 else b + [Some(Lens(name, f))]) == PutName(Live(b), name, f)
    decreases |b|
  {
    if b == [] {
      assert b + [Some(Lens(name, f))] == [Some(Lens(name, f))];
    } else {
      LiveInsert(b[1..], name, f);
      var fw := FirstWith(b[1..], name);
      if !Holds(b[0], name) {
        if fw.Some? {
          assert Modified(b, name, Some(Lens(name, f)))[1..] == Modified(b[1..], name, Some(Lens(name, f)));
        } else {
          assert (b + [Some(Lens(name, f))])[1..] == b[1..] + [Some(Lens(name, f))];
        }
      }
    }
  }

  /** What one step does to the live lenses of its box, in the reference
      semantics. */
  function ApplyRef(ls: seq<Lens>, st: Step): seq<Lens>
  {
    match st
    case Remove(name) => DeleteName(ls, name)
    case Insert(name, f) => PutName(ls, name, f)
  }

  /** The tombstone table simulates the deleting table box by box. */
  lemma ApplySimulates(bs: seq<Box>, st: Step, b: nat)
    requires |bs| == 256 && b < 256
    ensures Live(Apply(bs, st)[b]) == if b == Hash(st.name) then ApplyRef(Live(bs[b]), st) else Live(bs[b])
  {
    if b == Hash(st.name) {
      match st
      case Remove(name) => LiveRemove(bs[b], name);
      case Insert(name, f) => LiveInsert(bs[b], name, f);
    }
  }

  // ---------------------------------------------------------------------
  // Focusing power
  // ---------------------------------------------------------------------

  /** The power of box `b`: (1 + b) * (1 + position) * focal, summed over the
      live lenses. */
  function BoxPower(b: nat, ls: seq<Lens>): nat
  {
    if ls == [] then 0 else BoxPower(b, ls[..|ls| - 1]) + (1 + b) * |ls| * ls[|ls| - 1].focal
  }

  /** The power of the first `n` boxes. */
  function PowerUpTo(bs: seq<Box>, n: nat): nat
    requires n <= |bs|
  {
    if n == 0 then 0 else PowerUpTo(bs, n - 1) + BoxPower(n - 1, Live(bs[n - 1]))
  }

  function FocusingPower(bs: seq<Box>): nat
  {
    PowerUpTo(bs, |bs|)
  }

  /** The power depends only on the live lenses: boxes with the same live
      lenses, tombstones anywhere, have the same power. */
  lemma {:induction false} PowerOfLive(bs: seq<Box>, cs: seq<Box>, n: nat)
    requires n <= |bs| == |cs|
    requires forall b :: 0 <= b < |bs| ==> Live(bs[b]) == Live(cs[b])
    ensures PowerUpTo(bs, n) == PowerUpTo(cs, n)
    decreases n
  {
    if n > 0 {
      PowerOfLive(bs, cs, n - 1);
    }
  }

  /** Part 2 as a function of the input. */
  function Part2Spec(lines: seq<string>): Option<nat>
  {
    match Steps(lines)
    case None => None
    case Some(texts) =>
      match ParseSteps(texts)
      case None => None
      case Some(steps) => Some(FocusingPower(ApplyAll(EmptyBoxes(), steps)))
  }

  /** The loop body of part 2: one step applied to the boxes in place. */
  method RunStep(boxes: array<Box>, st: Step)
    requires boxes.Length == 256
    modifies boxes
    ensures boxes[..] == Apply(old(boxes[..]), st)
  {
    var h := Hash(st.name);
    if st.Insert? {
      var found := Modify(boxes, h, st.name, Some(Lens(st.name, st.focal)));
      if !found {
        boxes[h] := boxes[h] + [Some(Lens(st.name, st.focal))];
      }
    } else {
      var _ := Modify(boxes, h, st.name, None);
    }
  }

  /** The closing double loop of part 2: box by box, live lens by live lens. */
  method Power(boxes: array<Box>) returns (ans: nat)
    ensures ans == FocusingPower(boxes[..])
  {
    ans := 0;
    for b := 0 to boxes.Length
      invariant ans == PowerUpTo(boxes[..], b)
    {
      ans := AddBoxPower(ans, b, Live(boxes[b]));
    }
  }

  /** The inner loop of the power sum: adds the power of one box's live
      lenses to `base`. */
  method AddBoxPower(base: nat, b: nat, live: seq<Lens>) returns (ans: nat)
    ensures ans == base + BoxPower(b, live)
  {
    ans := base;
    for k := 0 to |live|
      invariant ans == base + BoxPower(b, live[..k])
    {
      assert live[..k + 1][..k] == live[..k];
      ans := ans + (1 + b) * (1 + k) * live[k].focal;
    }
    assert live[..|live|] == live;
  }

  /** Part 2: runs every step on 256 boxes updated in place, then adds up the
      focusing power. */
  method Part2(lines: seq<string>) returns (r: Option<nat>)
    ensures r == Part2Spec(lines)
  {
    if |lines| == 0 {
      return None;
    }
    var texts := Split(lines[0], ',');
    var boxes := new Box[256](_ => []);
    ghost var steps: seq<Step> := [];
    for i := 0 to |texts|
      invariant boxes.Length == 256
      invariant StepsDone(texts, i, steps, boxes[..])
    {
      var st := ParseStep(texts[i]);
      if st.None? {
        assert !(forall k :: 0 <= k < |texts| ==> ParseStep(texts[k]).Some?);
        return None;
      }
      StepsNext(texts, i, steps, st.value);
      RunStep(boxes, st.value);
      steps := steps + [st.value];
    }
    assert texts[..|texts|] == texts;
    var ans := Power(boxes);
    return Some(ans);
  }

  /** The state of part 2's step loop after the first `i` step texts. */
  predicate StepsDone(texts: seq<string>, i: nat, steps: seq<Step>, bs: seq<Box>)
  {
    && i <= |texts|
    && ParseSteps(texts[..i]) == Some(steps)
    && bs == ApplyAll(EmptyBoxes(), steps)
  }

  lemma StepsNext(texts: seq<string>, i: nat, steps: seq<Step>, st: Step)
    requires StepsDone(texts, i, steps, ApplyAll(EmptyBoxes(), steps)) && i < |texts|
    requires ParseStep(texts[i]) == Some(st)
    ensures StepsDone(texts, i + 1, steps + [st], Apply(ApplyAll(EmptyBoxes(), steps), st))
  {
    assert texts[..i + 1][..i] == texts[..i];
    assert (steps + [st])[..|steps|] == steps;
  }
}
