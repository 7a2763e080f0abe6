/** 2023 day 15: the HASH algorithm over the bytes of a step, and the HASHMAP
    procedure that keeps labelled lenses in 256 ordered boxes. */
module Y2023Day15 {
  import opened Common

  /** `hash`: the bytes folded with acc = (acc + c) * 17, wrapping at 256. */
  function Hash(s: string): (h: nat)
    ensures h < 256
  {
    HashFrom(0, s)
  }

  function HashFrom(acc: nat, s: string): (h: nat)
    ensures h < 256
    decreases |s|
  {
    if s == [] then acc % 256 else HashFrom(((acc + s[0] as int) * 17) % 256, s[1..])
  }

  /** Hashing a concatenation continues from the hash of the first part: the fold
      runs left to right. */
  lemma {:induction false} HashAppend(acc: nat, s: string, t: string)
    requires acc < 256
    ensures HashFrom(acc, s + t) == HashFrom(HashFrom(acc, s), t)
    decreases |s|
  {
    if s == [] {
      assert s + t == t;
    } else {
      var next := ((acc + s[0] as int) * 17) % 256;
      assert (s + t)[0] == s[0];
      assert (s + t)[1..] == s[1..] + t;
      assert HashFrom(acc, s + t) == HashFrom(next, s[1..] + t);
      assert HashFrom(acc, s) == HashFrom(next, s[1..]);
      HashAppend(next, s[1..], t);
    }
  }

  /** One more byte multiplies in the step of the fold. */
  lemma HashSnoc(s: string, c: char)
    ensures Hash(s + [c]) == ((Hash(s) + c as int) * 17) % 256
  {
    HashAppend(0, s, [c]);
  }

  /** `part_a`: the sum of the hashes of the steps. */
  function PartA(steps: seq<string>): (sum: nat)
    ensures sum <= 255 * |steps|
  {
    if steps == [] then 0 else PartA(steps[..|steps| - 1]) + Hash(steps[|steps| - 1])
  }

  /** The hashes of the example's steps add up to 1320. */
  lemma ExampleA(steps: seq<string>)
    requires steps == ["rn=1", "cm-", "qp=3", "cm=2", "qp-", "pc=4", "ot=9", "ab=5", "pc-", "pc=6", "ot=7"]
    ensures PartA(steps) == 1320
  {
    ExampleHashes();
    PartAOfEleven(steps);
  }

  lemma ExampleHashes()
    ensures Hash("rn=1") == 30 && Hash("cm-") == 253 && Hash("qp=3") == 97 && Hash("cm=2") == 47
    ensures Hash("qp-") == 14 && Hash("pc=4") == 180 && Hash("ot=9") == 9 && Hash("ab=5") == 197
    ensures Hash("pc-") == 48 && Hash("pc=6") == 214 && Hash("ot=7") == 231
  {
    HashOfRnSet1();
    HashOfCmRemove();
    HashOfQpSet3();
    HashOfCmSet2();
    HashOfQpRemove();
    HashOfPcSet4();
    HashOfOtSet9();
    HashOfAbSet5();
    HashOfPcRemove();
    HashOfPcSet6();
    HashOfOtSet7();
  }

  /** One byte of the fold. */
  lemma HashStep(acc: nat, s: string, next: nat)
    requires |s| > 0 && acc < 256 && next == ((acc + s[0] as int) * 17) % 256
    ensures HashFrom(acc, s) == HashFrom(next, s[1..])
  {
  }

  lemma HashOfRnSet1()
    ensures Hash("rn=1") == 30
  {
    var s := "rn=1";
    assert s[0] as int == 114 && s[1] as int == 110 && s[2] as int == 61 && s[3] as int == 49;
    HashStep(0, s, 146);
    HashStep(146, s[1..], 0);
    HashStep(0, s[2..], 13);
    HashStep(13, s[3..], 30);
    assert s[3..][1..] == [];
  }

  lemma HashOfCmRemove()
    ensures Hash("cm-") == 253
  {
    var s := "cm-";
    assert s[0] as int == 99 && s[1] as int == 109 && s[2] as int == 45;
    HashStep(0, s, 147);
    HashStep(147, s[1..], 0);
    HashStep(0, s[2..], 253);
    assert s[2..][1..] == [];
  }

  lemma HashOfQpSet3()
    ensures Hash("qp=3") == 97
  {
    var s := "qp=3";
    assert s[0] as int == 113 && s[1] as int == 112 && s[2] as int == 61 && s[3] as int == 51;
    HashStep(0, s, 129);
    HashStep(129, s[1..], 1);
    HashStep(1, s[2..], 30);
    HashStep(30, s[3..], 97);
    assert s[3..][1..] == [];
  }

  lemma HashOfCmSet2()
    ensures Hash("cm=2") == 47
  {
    var s := "cm=2";
    assert s[0] as int == 99 && s[1] as int == 109 && s[2] as int == 61 && s[3] as int == 50;
    HashStep(0, s, 147);
    HashStep(147, s[1..], 0);
    HashStep(0, s[2..], 13);
    HashStep(13, s[3..], 47);
    assert s[3..][1..] == [];
  }

  lemma HashOfQpRemove()
    ensures Hash("qp-") == 14
  {
    var s := "qp-";
    assert s[0] as int == 113 && s[1] as int == 112 && s[2] as int == 45;
    HashStep(0, s, 129);
    HashStep(129, s[1..], 1);
    HashStep(1, s[2..], 14);
    assert s[2..][1..] == [];
  }

  lemma HashOfPcSet4()
    ensures Hash("pc=4") == 180
  {
    var s := "pc=4";
    assert s[0] as int == 112 && s[1] as int == 99 && s[2] as int == 61 && s[3] as int == 52;
    HashStep(0, s, 112);
    HashStep(112, s[1..], 3);
    HashStep(3, s[2..], 64);
    HashStep(64, s[3..], 180);
    assert s[3..][1..] == [];
  }

  lemma HashOfOtSet9()
    ensures Hash("ot=9") == 9
  {
    var s := "ot=9";
    assert s[0] as int == 111 && s[1] as int == 116 && s[2] as int == 61 && s[3] as int == 57;
    HashStep(0, s, 95);
    HashStep(95, s[1..], 3);
    HashStep(3, s[2..], 64);
    HashStep(64, s[3..], 9);
    assert s[3..][1..] == [];
  }

  lemma HashOfAbSet5()
    ensures Hash("ab=5") == 197
  {
    var s := "ab=5";
    assert s[0] as int == 97 && s[1] as int == 98 && s[2] as int == 61 && s[3] as int == 53;
    HashStep(0, s, 113);
    HashStep(113, s[1..], 3);
    HashStep(3, s[2..], 64);
    HashStep(64, s[3..], 197);
    assert s[3..][1..] == [];
  }

  lemma HashOfPcRemove()
    ensures Hash("pc-") == 48
  {
    var s := "pc-";
    assert s[0] as int == 112 && s[1] as int == 99 && s[2] as int == 45;
    HashStep(0, s, 112);
    HashStep(112, s[1..], 3);
    HashStep(3, s[2..], 48);
    assert s[2..][1..] == [];
  }

  lemma HashOfPcSet6()
    ensures Hash("pc=6") == 214
  {
    var s := "pc=6";
    assert s[0] as int == 112 && s[1] as int == 99 && s[2] as int == 61 && s[3] as int == 54;
    HashStep(0, s, 112);
    HashStep(112, s[1..], 3);
    HashStep(3, s[2..], 64);
    HashStep(64, s[3..], 214);
    assert s[3..][1..] == [];
  }

  lemma HashOfOtSet7()
    ensures Hash("ot=7") == 231
  {
    var s := "ot=7";
    assert s[0] as int == 111 && s[1] as int == 116 && s[2] as int == 61 && s[3] as int == 55;
    HashStep(0, s, 95);
    HashStep(95, s[1..], 3);
    HashStep(3, s[2..], 64);
    HashStep(64, s[3..], 231);
    assert s[3..][1..] == [];
  }

  lemma PartAOfEleven(s: seq<string>)
    requires |s| == 11
    ensures PartA(s) == Hash(s[0]) + Hash(s[1]) + Hash(s[2]) + Hash(s[3]) + Hash(s[4]) + Hash(s[5])
                      + Hash(s[6]) + Hash(s[7]) + Hash(s[8]) + Hash(s[9]) + Hash(s[10])
  {
    PartAPrefix(s, 1);
    PartAPrefix(s, 2);
    PartAPrefix(s, 3);
    PartAPrefix(s, 4);
    PartAPrefix(s, 5);
    PartAPrefix(s, 6);
    PartAPrefix(s, 7);
    PartAPrefix(s, 8);
    PartAPrefix(s, 9);
    PartAPrefix(s, 10);
    PartAPrefix(s, 11);
    assert s[..11] == s;
    assert s[..0] == [];
  }

  lemma PartAPrefix(s: seq<string>, k: nat)
    requires 0 < k <= |s|
    ensures PartA(s[..k]) == PartA(s[..k - 1]) + Hash(s[k - 1])
  {
    assert s[..k][..k - 1] == s[..k - 1];
  }

  // ---------------------------------------------------------------------------
  // Lens boxes

  datatype Lens = Lens(name: string, focal: int)

  datatype Operation = Set(focal: int) | Remove

  datatype Step = Step(name: string, op: Operation)

  /** The slot of the first lens with this name. */
  function Find(b: seq<Lens>, name: string): (r: Option<nat>)
    ensures r.Some? ==> r.value < |b| && b[r.value].name == name
    ensures r.Some? ==> forall j | 0 <= j < r.value :: b[j].name != name
    ensures r.None? ==> forall j | 0 <= j < |b| :: b[j].name != name
  {
    if b == [] then None
    else if b[0].name == name then Some(0)
    else match Find(b[1..], name)
      case None => None
      case Some(p) => Some(p + 1)
  }

  /** The focal length stored under a name, if any. */
  function Focal(b: seq<Lens>, name: string): Option<int>
  {
    match Find(b, name)
    case None => None
    case Some(p) => Some(b[p].focal)
  }

  /** No name occurs twice in a box. */
  predicate Unique(b: seq<Lens>)
  {
    forall i, j | 0 <= i < j < |b| :: b[i].name != b[j].name
  }

  /** `Set` on one box: replace the focal length in place, else append the lens. */
  function Insert(b: seq<Lens>, name: string, focal: int): seq<Lens>
  {
    match Find(b, name)
    case Some(p) => b[p := Lens(name, focal)]
    case None => b + [Lens(name, focal)]
  }

  /** `Remove` on one box: delete the lens, keeping the order of the others. */
  function Delete(b: seq<Lens>, name: string): seq<Lens>
  {
    match Find(b, name)
    case Some(p) => b[..p] + b[p + 1..]
    case None => b
  }

  /** The lenses of a box without those labelled `name`, in order. */
  function Without(b: seq<Lens>, name: string): (r: seq<Lens>)
    ensures |r| <= |b|
  {
    if b == [] then [] else (if b[0].name == name then [] else [b[0]]) + Without(b[1..], name)
  }

  /** A lens with no earlier namesake is the one `Find` returns. */
  lemma FindFirst(b: seq<Lens>, name: string, i: nat)
    requires i < |b| && b[i].name == name
    requires forall j | 0 <= j < i :: b[j].name != name
    ensures Find(b, name) == Some(i)
  {
  }

  /** In a box without duplicates, a lens is found at its own slot. */
  lemma FindInUnique(b: seq<Lens>, p: nat)
    requires Unique(b) && p < |b|
    ensures Find(b, b[p].name) == Some(p)
  {
    FindFirst(b, b[p].name, p);
  }

  /** After `Set`, the name holds the new focal length and every other name keeps
      its own; no name is duplicated. */
  lemma InsertSemantics(b: seq<Lens>, name: string, focal: int, other: string)
    requires Unique(b)
    ensures Unique(Insert(b, name, focal))
    ensures Focal(Insert(b, name, focal), other) == if other == name then Some(focal) else Focal(b, other)
  {
    var r := Insert(b, name, focal);
    match Find(b, name)
    case Some(p) =>
      FindInUnique(r, p);
      if other != name {
        SameSlots(b, r, other);
      }
    case None =>
      FindInUnique(r, |b|);
      if other != name {
        SameSlots(b, r, other);
      }
  }

  /** Two boxes whose lenses named `l` sit in the same slots with the same focal
      lengths agree on `l`. */
  lemma SameSlots(b: seq<Lens>, c: seq<Lens>, l: string)
    requires forall j | 0 <= j < |c| && c[j].name == l :: j < |b| && b[j] == c[j]
    requires forall j | 0 <= j < |b| && b[j].name == l :: j < |c| && b[j] == c[j]
    ensures Focal(b, l) == Focal(c, l)
  {
    match Find(b, l)
    case None =>
    case Some(p) =>
      FindFirst(c, l, p);
  }

  /** After `Remove` the name is gone and every other name keeps its focal length. */
  lemma DeleteSemantics(b: seq<Lens>, name: string, other: string)
    requires Unique(b)
    ensures Unique(Delete(b, name))
    ensures Focal(Delete(b, name), other) == if other == name then None else Focal(b, other)
  {
    match Find(b, name)
    case None =>
    case Some(p) =>
      var r := b[..p] + b[p + 1..];
      assert Delete(b, name) == r;
      DeleteSlots(b, p, r);
      DeleteUnique(b, p, r);
      if other == name {
        assert forall j | 0 <= j < |r| :: r[j].name != name;
      } else {
        match Find(b, other)
        case None =>
        case Some(q) =>
          if q < p {
            FindFirst(r, other, q);
          } else {
            FindFirst(r, other, q - 1);
          }
      }
  }

  /** Deleting slot `p` shifts the later lenses down by one. */
  lemma DeleteSlots(b: seq<Lens>, p: nat, r: seq<Lens>)
    requires p < |b| && r == b[..p] + b[p + 1..]
    ensures |r| == |b| - 1
    ensures forall j | 0 <= j < p :: r[j] == b[j]
    ensures forall j | p <= j < |r| :: r[j] == b[j + 1]
  {
  }

  /** Deleting a slot keeps a box free of duplicates. */
  lemma DeleteUnique(b: seq<Lens>, p: nat, r: seq<Lens>)
    requires Unique(b) && p < |b| && |r| == |b| - 1
    requires forall j | 0 <= j < p :: r[j] == b[j]
    requires forall j | p <= j < |r| :: r[j] == b[j + 1]
    ensures Unique(r)
    ensures forall j | 0 <= j < |r| :: r[j].name != b[p].name
  {
    forall i, j | 0 <= i < j < |r|
      ensures r[i].name != r[j].name
    {
      var i', j' := if i < p then i else i + 1, if j < p then j else j + 1;
      assert r[i] == b[i'] && r[j] == b[j'];
    }
    forall j | 0 <= j < |r|
      ensures r[j].name != b[p].name
    {
      var j' := if j < p then j else j + 1;
      assert r[j] == b[j'];
    }
  }

  /** `Remove` keeps the other lenses in their order. */
  lemma DeleteKeepsOrder(b: seq<Lens>, name: string)
    requires Unique(b)
    ensures Delete(b, name) == Without(b, name)
  {
    match Find(b, name)
    case None =>
      WithoutAbsent(b, name);
      assert Delete(b, name) == b;
    case Some(p) =>
      UniqueAfter(b, p);
      WithoutSlot(b, p, name);
      assert Delete(b, name) == b[..p] + b[p + 1..];
  }

  /** Dropping the only lens named `name`, at slot `p`, is deleting that slot. */
  lemma WithoutSlot(b: seq<Lens>, p: nat, name: string)
    requires p < |b| && b[p].name == name
    requires forall j | 0 <= j < |b| && j != p :: b[j].name != name
    ensures Without(b, name) == b[..p] + b[p + 1..]
  {
    var pre, mid, post := b[..p], [b[p]], b[p + 1..];
    assert b == pre + (mid + post);
    WithoutAppend(pre, mid + post, name);
    WithoutAppend(mid, post, name);
    assert Without(mid, name) == [] by {
      assert mid[1..] == [];
    }
    WithoutAbsent(pre, name);
    forall j | 0 <= j < |post|
      ensures post[j].name != name
    {
      assert post[j] == b[p + 1 + j];
    }
    WithoutAbsent(post, name);
    assert Without(mid + post, name) == post by {
      assert [] + post == post;
    }
  }

  /** In a box without duplicates, no lens after slot `p` shares its name. */
  lemma UniqueAfter(b: seq<Lens>, p: nat)
    requires Unique(b) && p < |b|
    ensures forall j | p < j < |b| :: b[j].name != b[p].name
  {
  }

  lemma {:induction false} WithoutAbsent(b: seq<Lens>, name: string)
    requires forall j | 0 <= j < |b| :: b[j].name != name
    ensures Without(b, name) == b
    decreases |b|
  {
    if b != [] {
      WithoutAbsent(b[1..], name);
      assert [b[0]] + b[1..] == b;
    }
  }

  lemma {:induction false} WithoutAppend(b: seq<Lens>, c: seq<Lens>, name: string)
    ensures Without(b + c, name) == Without(b, name) + Without(c, name)
    decreases |b|
  {
    if b == [] {
      assert b + c == c;
    } else {
      assert (b + c)[1..] == b[1..] + c;
      WithoutAppend(b[1..], c, name);
    }
  }

  /** The 256 boxes of `part_b`, each a queue of lenses. */
  class Boxes {
    var boxes: seq<seq<Lens>>

    /** 256 boxes; every lens sits in the box its name hashes to, and no box holds
        a name twice. */
    ghost predicate Valid()
      reads this
    {
      |boxes| == 256
      && (forall i | 0 <= i < 256 :: Unique(boxes[i]))
      && (forall i, j | 0 <= i < 256 && 0 <= j < |boxes[i]| :: Hash(boxes[i][j].name) == i)
    }

    constructor ()
      ensures Valid() && boxes == seq(256, i => [])
    {
      boxes := seq(256, i => []);
    }

    /** `iter().position`: the slot of the first lens with this name. */
    static method Position(b: seq<Lens>, name: string) returns (r: Option<nat>)
      ensures r == Find(b, name)
    {
      var i := 0;
      while i < |b|
        invariant 0 <= i <= |b|
        invariant forall j | 0 <= j < i :: b[j].name != name
      {
        if b[i].name == name {
          FindFirst(b, name, i);
          return Some(i);
        }
        i := i + 1;
      }
      return None;
    }

    /** One step of the procedure, on the box of the name's hash. */
    method Apply(step: Step)
      requires Valid()
      modifies this
      ensures Valid()
      ensures boxes == old(boxes)[Hash(step.name) := ApplyToBox(old(boxes)[Hash(step.name)], step)]
    {
      var h := Hash(step.name);
      var b := boxes[h];
      var p := Position(b, step.name);
      match step.op {
        case Set(focal) =>
          InsertSemantics(b, step.name, focal, step.name);
          if p.Some? {
            b := b[p.value := Lens(step.name, focal)];
          } else {
            b := b + [Lens(step.name, focal)];
          }
        case Remove =>
          DeleteSemantics(b, step.name, step.name);
          if p.Some? {
            b := b[..p.value] + b[p.value + 1..];
          }
      }
      boxes := boxes[h := b];
    }
  }

  function ApplyToBox(b: seq<Lens>, step: Step): seq<Lens>
  {
    match step.op
    case Set(focal) => Insert(b, step.name, focal)
    case Remove => Delete(b, step.name)
  }

  /** The boxes after a sequence of steps from empty boxes. */
  function Arrange(steps: seq<Step>): (boxes: seq<seq<Lens>>)
    ensures |boxes| == 256
  {
    if steps == [] then seq(256, i => [])
    else
      var before := Arrange(steps[..|steps| - 1]);
      var step := steps[|steps| - 1];
      before[Hash(step.name) := ApplyToBox(before[Hash(step.name)], step)]
  }

  /** The focusing power: (box + 1) * (slot + 1) * focal length, summed. */
  function Power(boxes: seq<seq<Lens>>): int
  {
    if boxes == [] then 0 else Power(boxes[..|boxes| - 1]) + |boxes| * BoxPower(boxes[|boxes| - 1])
  }

  function BoxPower(b: seq<Lens>): int
  {
    if b == [] then 0 else BoxPower(b[..|b| - 1]) + |b| * b[|b| - 1].focal
  }

  /** `part_b`: the steps applied in order to empty boxes, then the focusing power. */
  method PartB(steps: seq<Step>) returns (power: int)
    ensures power == Power(Arrange(steps))
  {
    var boxes := new Boxes();
    for k := 0 to |steps|
      invariant boxes.Valid() && boxes.boxes == Arrange(steps[..k])
    {
      assert steps[..k + 1][..k] == steps[..k];
      boxes.Apply(steps[k]);
    }
    assert steps[..|steps|] == steps;
    power := Power(boxes.boxes);
  }
}
