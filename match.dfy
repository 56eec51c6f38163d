/**
 * Structural comparison of two Go syntax trees that ignores source
 * positions.  `Compare` follows the matcher: the same node matches itself;
 * otherwise the left node's type selects a case, the right node must have the
 * same type and the same compared scalar, and the children are compared in
 * order, stopping at the first that does not match.  The comparison reports
 * one of three outcomes: the trees match, they differ, or the comparison
 * panics (it dereferences a nil pointer-typed child, or compares two slices
 * with `==`).
 *
 * Pointer identity is datatype equality: equal values count as one node.
 * Nodes of the types the switch has no case for carry an address, so for
 * them equality is identity.
 */
module Match {
  import opened Wrappers
  import opened GoToken
  import opened GoAst

  /** Outcome of one comparison. */
  datatype Verdict = Same | Differ | Panic

  /**
   * The matcher as the code is written, or with the statements of a select
   * case compared through their address, like every other slice field.
   */
  datatype Edition = AsWritten | Fixed

  /** Go's `a && b` on outcomes: the second comparison runs only after a match. */
  function And(a: Verdict, b: Verdict): Verdict
  {
    if a == Same then b else a
  }

  /** Whether two compared scalars agree; of an ellipsis only its presence counts. */
  predicate SameKey(a: Key, b: Key)
  {
    match a
    case EllipsisAt(p) => b.EllipsisAt? && (p == NoPos) == (b.pos == NoPos)
    case _ => a == b
  }

  /** Compare two nodes. */
  function Compare(ed: Edition, l: Node, r: Node): Verdict
    decreases l
  {
    if l == r then Same
    else if !Handled(l.kind) || r.kind != l.kind || !SameKey(l.key, r.key) then Differ
    else CompareSlots(ed, l.kind, 0, l.slots, r.slots)
  }

  /** Compare the children of two nodes of type `k`, from child `i` on. */
  function CompareSlots(ed: Edition, k: Kind, i: nat, a: seq<Slot>, b: seq<Slot>): Verdict
    decreases a
  {
    if a == [] || b == [] then (if |a| == |b| then Same else Differ)
    else And(CompareSlot(ed, k, i, a[0], b[0]), CompareSlots(ed, k, i + 1, a[1..], b[1..]))
  }

  /** Compare child `i` of two nodes of type `k`. */
  function CompareSlot(ed: Edition, k: Kind, i: nat, a: Slot, b: Slot): Verdict
    decreases a
  {
    match a
    case Child(x) => if b.Child? then Compare(ed, x, b.node) else Differ
    case Iface(x) => if b.Iface? then CompareIface(ed, x, b.opt) else Differ
    case Ptr(x) => if b.Ptr? then ComparePtr(ed, x, b.ptr) else Differ
    case List(s) =>
      if !b.List? then Differ
      // As written, the statements of two select cases meet in `==`, which
      // panics on slices.
      else if ed == AsWritten && k.CommClauseKind? && i == 1 then Panic
      else CompareSlices(ed, s, b.slice)
  }

  /** A nil interface on one side only fails every type assertion. */
  function CompareIface(ed: Edition, a: Option<Node>, b: Option<Node>): Verdict
    decreases a
  {
    match a
    case None => if b.None? then Same else Differ
    case Some(x) => if b.Some? then Compare(ed, x, b.value) else Differ
  }

  /** A typed nil pointer on one side passes the type assertion and is dereferenced. */
  function ComparePtr(ed: Edition, a: Option<Node>, b: Option<Node>): Verdict
    decreases a
  {
    match a
    case None => if b.None? then Same else Panic
    case Some(x) => if b.Some? then Compare(ed, x, b.value) else Panic
  }

  /** Compare two slices: equal lengths, then element by element. */
  function CompareSlices(ed: Edition, a: Slice, b: Slice): Verdict
    decreases a
  {
    match a
    case Nil => if |Items(b)| == 0 then Same else Differ
    case Make(xs) => if |xs| == |Items(b)| then CompareEach(ed, xs, Items(b)) else Differ
  }

  /** The element loop: stops at the first element that does not match. */
  function CompareEach(ed: Edition, a: seq<Node>, b: seq<Node>): Verdict
    requires |a| == |b|
    decreases a
  {
    if a == [] then Same else And(Compare(ed, a[0], b[0]), CompareEach(ed, a[1..], b[1..]))
  }

  /**
   * The matcher's boolean answer, where it does not panic: two trees match
   * exactly when they agree once the fields the matcher ignores are erased.
   */
  function Match(l: Node, r: Node): (m: bool)
    requires Compare(Fixed, l, r) != Panic
    ensures m <==> Erase(l) == Erase(r)
  {
    SameIffErasedEqual(l, r);
    Compare(Fixed, l, r) == Same
  }

  /**
   * The tree with every field the matcher ignores dropped, a call's ellipsis
   * reduced to its presence and every nil slice made empty.  A node of an
   * unhandled type is kept whole: only the node itself matches it.
   */
  function Erase(n: Node): Node
    decreases n
  {
    if !Handled(n.kind) then n else Node(n.kind, EraseKey(n.key), EraseSlots(n.slots), [])
  }

  function EraseKey(k: Key): Key
  {
    match k
    case EllipsisAt(p) => EllipsisAt(if p == NoPos then NoPos else 1)
    case _ => k
  }

  function EraseSlots(a: seq<Slot>): (r: seq<Slot>)
    ensures |r| == |a|
    decreases a
  {
    if a == [] then [] else [EraseSlot(a[0])] + EraseSlots(a[1..])
  }

  function EraseSlot(a: Slot): (r: Slot)
    ensures r.Child? == a.Child? && r.Iface? == a.Iface? && r.Ptr? == a.Ptr?
    decreases a
  {
    match a
    case Child(x) => Child(Erase(x))
    case Iface(x) => Iface(EraseOpt(x))
    case Ptr(x) => Ptr(EraseOpt(x))
    case List(s) => List(EraseSlice(s))
  }

  function EraseOpt(a: Option<Node>): Option<Node>
    decreases a
  {
    match a
    case None => None
    case Some(x) => Some(Erase(x))
  }

  function EraseSlice(a: Slice): Slice
    decreases a
  {
    match a
    case Nil => Make([])
    case Make(xs) => Make(EraseSeq(xs))
  }

  function EraseSeq(a: seq<Node>): (r: seq<Node>)
    ensures |r| == |a|
    decreases a
  {
    if a == [] then [] else [Erase(a[0])] + EraseSeq(a[1..])
  }

  /** The comparison succeeds exactly on trees that are equal once erased. */
  lemma {:induction false} SameIffErasedEqual(l: Node, r: Node)
    ensures Compare(Fixed, l, r) == Same <==> Erase(l) == Erase(r)
    decreases l
  {
    if l == r || !Handled(l.kind) || r.kind != l.kind { return; }
    SameKeyIffErasedEqual(l.key, r.key);
    SameIffErasedEqualSlots(l.kind, 0, l.slots, r.slots);
  }

  lemma SameKeyIffErasedEqual(a: Key, b: Key)
    ensures SameKey(a, b) <==> EraseKey(a) == EraseKey(b)
  {
  }

  lemma {:induction false} SameIffErasedEqualSlots(k: Kind, i: nat, a: seq<Slot>, b: seq<Slot>)
    ensures CompareSlots(Fixed, k, i, a, b) == Same <==> EraseSlots(a) == EraseSlots(b)
    decreases a
  {
    if a != [] && b != [] {
      SameIffErasedEqualSlot(k, i, a[0], b[0]);
      SameIffErasedEqualSlots(k, i + 1, a[1..], b[1..]);
      assert EraseSlots(a)[0] == EraseSlot(a[0]) && EraseSlots(a)[1..] == EraseSlots(a[1..]);
      assert EraseSlots(b)[0] == EraseSlot(b[0]) && EraseSlots(b)[1..] == EraseSlots(b[1..]);
    }
  }

  lemma {:induction false} SameIffErasedEqualSlot(k: Kind, i: nat, a: Slot, b: Slot)
    ensures CompareSlot(Fixed, k, i, a, b) == Same <==> EraseSlot(a) == EraseSlot(b)
    decreases a, 1
  {
    if a.Child? && b.Child? {
      SameIffErasedEqualChild(k, i, a, b);
    } else if a.Iface? && b.Iface? {
      SameIffErasedEqualIface(k, i, a, b);
    } else if a.Ptr? && b.Ptr? {
      SameIffErasedEqualPtr(k, i, a, b);
    } else if a.List? && b.List? {
      SameIffErasedEqualList(k, i, a, b);
    } else {
      SameIffErasedEqualMixed(k, i, a, b);
    }
  }

  lemma SameIffErasedEqualMixed(k: Kind, i: nat, a: Slot, b: Slot)
    requires !(a.Child? && b.Child?) && !(a.Iface? && b.Iface?) && !(a.Ptr? && b.Ptr?) && !(a.List? && b.List?)
    ensures CompareSlot(Fixed, k, i, a, b) == Differ && EraseSlot(a) != EraseSlot(b)
  {
  }

  lemma {:induction false} SameIffErasedEqualChild(k: Kind, i: nat, a: Slot, b: Slot)
    requires a.Child? && b.Child?
    ensures CompareSlot(Fixed, k, i, a, b) == Same <==> EraseSlot(a) == EraseSlot(b)
    decreases a, 0
  {
    SameIffErasedEqual(a.node, b.node);
  }

  lemma {:induction false} SameIffErasedEqualIface(k: Kind, i: nat, a: Slot, b: Slot)
    requires a.Iface? && b.Iface?
    ensures CompareSlot(Fixed, k, i, a, b) == Same <==> EraseSlot(a) == EraseSlot(b)
    decreases a, 0
  {
    SameIffErasedEqualOpt(a.opt, b.opt);
  }

  lemma {:induction false} SameIffErasedEqualPtr(k: Kind, i: nat, a: Slot, b: Slot)
    requires a.Ptr? && b.Ptr?
    ensures CompareSlot(Fixed, k, i, a, b) == Same <==> EraseSlot(a) == EraseSlot(b)
    decreases a, 0
  {
    SameIffErasedEqualOpt(a.ptr, b.ptr);
  }

  lemma {:induction false} SameIffErasedEqualList(k: Kind, i: nat, a: Slot, b: Slot)
    requires a.List? && b.List?
    ensures CompareSlot(Fixed, k, i, a, b) == Same <==> EraseSlot(a) == EraseSlot(b)
    decreases a, 0
  {
    SameIffErasedEqualSlices(a.slice, b.slice);
  }

  lemma {:induction false} SameIffErasedEqualOpt(a: Option<Node>, b: Option<Node>)
    ensures CompareIface(Fixed, a, b) == Same <==> EraseOpt(a) == EraseOpt(b)
    ensures ComparePtr(Fixed, a, b) == Same <==> EraseOpt(a) == EraseOpt(b)
    decreases a
  {
    if a.Some? && b.Some? { SameIffErasedEqual(a.value, b.value); }
  }

  lemma {:induction false} SameIffErasedEqualSlices(a: Slice, b: Slice)
    ensures CompareSlices(Fixed, a, b) == Same <==> EraseSlice(a) == EraseSlice(b)
    decreases a
  {
    if a.Make? && |a.elems| == |Items(b)| { SameIffErasedEqualEach(a.elems, Items(b)); }
  }

  lemma {:induction false} SameIffErasedEqualEach(a: seq<Node>, b: seq<Node>)
    requires |a| == |b|
    ensures CompareEach(Fixed, a, b) == Same <==> EraseSeq(a) == EraseSeq(b)
    decreases a
  {
    if a != [] {
      SameIffErasedEqual(a[0], b[0]);
      SameIffErasedEqualEach(a[1..], b[1..]);
      assert EraseSeq(a)[0] == Erase(a[0]) && EraseSeq(a)[1..] == EraseSeq(a[1..]);
      assert EraseSeq(b)[0] == Erase(b[0]) && EraseSeq(b)[1..] == EraseSeq(b[1..]);
    }
  }

  // The two editions

  /**
   * The correction only removes panics: wherever the matcher as written does
   * not panic, it gives the corrected matcher's answer.
   */
  lemma {:induction false} EditionsAgree(l: Node, r: Node)
    ensures Compare(AsWritten, l, r) != Panic ==> Compare(AsWritten, l, r) == Compare(Fixed, l, r)
    decreases l
  {
    if l != r && Handled(l.kind) && r.kind == l.kind && SameKey(l.key, r.key) {
      SlotsAgree(l.kind, 0, l.slots, r.slots);
    }
  }

  lemma {:induction false} SlotsAgree(k: Kind, i: nat, a: seq<Slot>, b: seq<Slot>)
    ensures CompareSlots(AsWritten, k, i, a, b) != Panic ==>
      CompareSlots(AsWritten, k, i, a, b) == CompareSlots(Fixed, k, i, a, b)
    decreases a
  {
    if a != [] && b != [] {
      SlotAgree(k, i, a[0], b[0]);
      SlotsAgree(k, i + 1, a[1..], b[1..]);
    }
  }

  lemma {:induction false} SlotAgree(k: Kind, i: nat, a: Slot, b: Slot)
    ensures CompareSlot(AsWritten, k, i, a, b) != Panic ==>
      CompareSlot(AsWritten, k, i, a, b) == CompareSlot(Fixed, k, i, a, b)
    decreases a
  {
    match a
    case Child(x) => if b.Child? { EditionsAgree(x, b.node); }
    case Iface(x) => if b.Iface? { OptAgree(x, b.opt); }
    case Ptr(x) => if b.Ptr? { OptAgree(x, b.ptr); }
    case List(s) => if b.List? { SlicesAgree(s, b.slice); }
  }

  lemma {:induction false} OptAgree(a: Option<Node>, b: Option<Node>)
    ensures CompareIface(AsWritten, a, b) != Panic ==> CompareIface(AsWritten, a, b) == CompareIface(Fixed, a, b)
    ensures ComparePtr(AsWritten, a, b) != Panic ==> ComparePtr(AsWritten, a, b) == ComparePtr(Fixed, a, b)
    decreases a
  {
    if a.Some? && b.Some? { EditionsAgree(a.value, b.value); }
  }

  lemma {:induction false} SlicesAgree(a: Slice, b: Slice)
    ensures CompareSlices(AsWritten, a, b) != Panic ==> CompareSlices(AsWritten, a, b) == CompareSlices(Fixed, a, b)
    decreases a
  {
    if a.Make? && |a.elems| == |Items(b)| { EachAgree(a.elems, Items(b)); }
  }

  lemma {:induction false} EachAgree(a: seq<Node>, b: seq<Node>)
    requires |a| == |b|
    ensures CompareEach(AsWritten, a, b) != Panic ==> CompareEach(AsWritten, a, b) == CompareEach(Fixed, a, b)
    decreases a
  {
    if a != [] {
      EditionsAgree(a[0], b[0]);
      EachAgree(a[1..], b[1..]);
    }
  }

  /**
   * The matcher as written, wherever it does not panic: two trees match
   * exactly when they agree once the fields the matcher ignores are erased.
   */
  lemma AsWrittenSameIffErasedEqual(l: Node, r: Node)
    requires Compare(AsWritten, l, r) != Panic
    ensures Compare(AsWritten, l, r) == Same <==> Erase(l) == Erase(r)
  {
    EditionsAgree(l, r);
    SameIffErasedEqual(l, r);
  }

  // Erasure

  /** Erasing twice erases nothing more. */
  lemma {:induction false} EraseIdempotent(n: Node)
    ensures Erase(Erase(n)) == Erase(n)
    decreases n
  {
    if Handled(n.kind) {
      EraseSlotsIdempotent(n.slots);
    }
  }

  lemma {:induction false} EraseSlotsIdempotent(a: seq<Slot>)
    ensures EraseSlots(EraseSlots(a)) == EraseSlots(a)
    decreases a
  {
    if a != [] {
      EraseSlotIdempotent(a[0]);
      EraseSlotsIdempotent(a[1..]);
      assert EraseSlots(a)[0] == EraseSlot(a[0]) && EraseSlots(a)[1..] == EraseSlots(a[1..]);
    }
  }

  lemma {:induction false} EraseSlotIdempotent(a: Slot)
    ensures EraseSlot(EraseSlot(a)) == EraseSlot(a)
    decreases a
  {
    match a
    case Child(x) => EraseIdempotent(x);
    case Iface(x) => if x.Some? { EraseIdempotent(x.value); }
    case Ptr(x) => if x.Some? { EraseIdempotent(x.value); }
    case List(s) => if s.Make? { EraseSeqIdempotent(s.elems); }
  }

  lemma {:induction false} EraseSeqIdempotent(a: seq<Node>)
    ensures EraseSeq(EraseSeq(a)) == EraseSeq(a)
    decreases a
  {
    if a != [] {
      EraseIdempotent(a[0]);
      EraseSeqIdempotent(a[1..]);
      assert EraseSeq(a)[0] == Erase(a[0]) && EraseSeq(a)[1..] == EraseSeq(a[1..]);
    }
  }

  // Consequences of the characterisation

  /**
   * A tree matches any tree that differs from it only in fields the matcher
   * ignores; in particular it matches its own erasure.
   */
  lemma MatchesOwnErasure(n: Node)
    ensures Compare(Fixed, n, Erase(n)) == Same
  {
    EraseIdempotent(n);
    SameIffErasedEqual(n, Erase(n));
  }

  /** Matching is transitive. */
  lemma SameTransitive(a: Node, b: Node, c: Node)
    requires Compare(Fixed, a, b) == Same && Compare(Fixed, b, c) == Same
    ensures Compare(Fixed, a, c) == Same
  {
    SameIffErasedEqual(a, b);
    SameIffErasedEqual(b, c);
    SameIffErasedEqual(a, c);
  }

  // Symmetry

  /** Swapping the operands changes no outcome, a panic included. */
  lemma {:induction false} CompareSymmetric(ed: Edition, l: Node, r: Node)
    ensures Compare(ed, l, r) == Compare(ed, r, l)
    decreases l
  {
    if l != r && Handled(l.kind) && r.kind == l.kind && SameKey(l.key, r.key) {
      SlotsSymmetric(ed, l.kind, 0, l.slots, r.slots);
    }
  }

  lemma {:induction false} SlotsSymmetric(ed: Edition, k: Kind, i: nat, a: seq<Slot>, b: seq<Slot>)
    ensures CompareSlots(ed, k, i, a, b) == CompareSlots(ed, k, i, b, a)
    decreases a
  {
    if a != [] && b != [] {
      SlotSymmetric(ed, k, i, a[0], b[0]);
      SlotsSymmetric(ed, k, i + 1, a[1..], b[1..]);
    }
  }

  lemma {:induction false} SlotSymmetric(ed: Edition, k: Kind, i: nat, a: Slot, b: Slot)
    ensures CompareSlot(ed, k, i, a, b) == CompareSlot(ed, k, i, b, a)
    decreases a, 1
  {
    if a.Child? && b.Child? {
      ChildSymmetric(ed, k, i, a, b);
    } else if a.Iface? && b.Iface? {
      IfaceSymmetric(ed, k, i, a, b);
    } else if a.Ptr? && b.Ptr? {
      PtrSymmetric(ed, k, i, a, b);
    } else if a.List? && b.List? {
      ListSymmetric(ed, k, i, a, b);
    } else {
      MixedSymmetric(ed, k, i, a, b);
    }
  }

  /** Children of different Go types: both orders fail. */
  lemma MixedSymmetric(ed: Edition, k: Kind, i: nat, a: Slot, b: Slot)
    requires !(a.Child? && b.Child?) && !(a.Iface? && b.Iface?) && !(a.Ptr? && b.Ptr?) && !(a.List? && b.List?)
    ensures CompareSlot(ed, k, i, a, b) == Differ == CompareSlot(ed, k, i, b, a)
  {
  }

  lemma {:induction false} ChildSymmetric(ed: Edition, k: Kind, i: nat, a: Slot, b: Slot)
    requires a.Child? && b.Child?
    ensures CompareSlot(ed, k, i, a, b) == CompareSlot(ed, k, i, b, a)
    decreases a, 0
  {
    CompareSymmetric(ed, a.node, b.node);
  }

  lemma {:induction false} IfaceSymmetric(ed: Edition, k: Kind, i: nat, a: Slot, b: Slot)
    requires a.Iface? && b.Iface?
    ensures CompareSlot(ed, k, i, a, b) == CompareSlot(ed, k, i, b, a)
    decreases a, 0
  {
    OptSymmetric(ed, a.opt, b.opt);
  }

  lemma {:induction false} PtrSymmetric(ed: Edition, k: Kind, i: nat, a: Slot, b: Slot)
    requires a.Ptr? && b.Ptr?
    ensures CompareSlot(ed, k, i, a, b) == CompareSlot(ed, k, i, b, a)
    decreases a, 0
  {
    OptSymmetric(ed, a.ptr, b.ptr);
  }

  lemma {:induction false} ListSymmetric(ed: Edition, k: Kind, i: nat, a: Slot, b: Slot)
    requires a.List? && b.List?
    ensures CompareSlot(ed, k, i, a, b) == CompareSlot(ed, k, i, b, a)
    decreases a, 0
  {
    SlicesSymmetric(ed, a.slice, b.slice);
  }

  lemma {:induction false} OptSymmetric(ed: Edition, a: Option<Node>, b: Option<Node>)
    ensures CompareIface(ed, a, b) == CompareIface(ed, b, a)
    ensures ComparePtr(ed, a, b) == ComparePtr(ed, b, a)
    decreases a
  {
    if a.Some? && b.Some? { CompareSymmetric(ed, a.value, b.value); }
  }

  lemma {:induction false} SlicesSymmetric(ed: Edition, a: Slice, b: Slice)
    ensures CompareSlices(ed, a, b) == CompareSlices(ed, b, a)
    decreases a
  {
    match a
    case Nil =>
    case Make(xs) => if |xs| == |Items(b)| { EachSymmetric(ed, xs, Items(b)); }
  }

  lemma {:induction false} EachSymmetric(ed: Edition, a: seq<Node>, b: seq<Node>)
    requires |a| == |b|
    ensures CompareEach(ed, a, b) == CompareEach(ed, b, a)
    decreases a
  {
    if a != [] {
      CompareSymmetric(ed, a[0], b[0]);
      EachSymmetric(ed, a[1..], b[1..]);
    }
  }

  // Slices

  /** Slices of different lengths never match, whatever their elements. */
  lemma LengthMismatch(ed: Edition, a: Slice, b: Slice)
    requires |Items(a)| != |Items(b)|
    ensures CompareSlices(ed, a, b) == Differ
  {
  }

  /** A slice matches itself element by element, even where it is not the same node. */
  lemma SlicesReflexive(ed: Edition, s: Slice)
    ensures CompareSlices(ed, s, s) == Same
  {
    EachReflexive(ed, Items(s));
  }

  lemma {:induction false} EachReflexive(ed: Edition, a: seq<Node>)
    ensures CompareEach(ed, a, a) == Same
    decreases a
  {
    if a != [] {
      EachReflexive(ed, a[1..]);
    }
  }

  /**
   * Slices of equal length match exactly when every pair of elements at the
   * same index matches, and otherwise the outcome is that of the first pair
   * that does not match: the loop stops there.
   */
  lemma Elementwise(ed: Edition, a: Slice, b: Slice)
    requires |Items(a)| == |Items(b)|
    ensures CompareSlices(ed, a, b) == Same <==>
      forall k | 0 <= k < |Items(a)| :: Compare(ed, Items(a)[k], Items(b)[k]) == Same
    ensures CompareSlices(ed, a, b) != Same ==>
      exists k | 0 <= k < |Items(a)| ::
        && (forall j | 0 <= j < k :: Compare(ed, Items(a)[j], Items(b)[j]) == Same)
        && CompareSlices(ed, a, b) == Compare(ed, Items(a)[k], Items(b)[k])
  {
    EachFirstFailure(ed, Items(a), Items(b));
  }

  lemma {:induction false} EachFirstFailure(ed: Edition, a: seq<Node>, b: seq<Node>)
    requires |a| == |b|
    ensures CompareEach(ed, a, b) == Same <==> forall k | 0 <= k < |a| :: Compare(ed, a[k], b[k]) == Same
    ensures CompareEach(ed, a, b) != Same ==>
      exists k | 0 <= k < |a| ::
        && (forall j | 0 <= j < k :: Compare(ed, a[j], b[j]) == Same)
        && CompareEach(ed, a, b) == Compare(ed, a[k], b[k])
    decreases a
  {
    if a != [] {
      EachFirstFailure(ed, a[1..], b[1..]);
      if Compare(ed, a[0], b[0]) != Same {
        assert CompareEach(ed, a, b) == Compare(ed, a[0], b[0]);
      } else if CompareEach(ed, a[1..], b[1..]) != Same {
        var k :| 0 <= k < |a| - 1
          && (forall j | 0 <= j < k :: Compare(ed, a[1..][j], b[1..][j]) == Same)
          && CompareEach(ed, a[1..], b[1..]) == Compare(ed, a[1..][k], b[1..][k]);
        assert forall j | 0 <= j < k + 1 :: Compare(ed, a[j], b[j]) == Same by {
          forall j | 0 <= j < k + 1 ensures Compare(ed, a[j], b[j]) == Same {
            if j > 0 { assert a[j] == a[1..][j - 1] && b[j] == b[1..][j - 1]; }
          }
        }
        assert CompareEach(ed, a, b) == Compare(ed, a[k + 1], b[k + 1]);
      } else {
        forall k | 0 <= k < |a| ensures Compare(ed, a[k], b[k]) == Same {
          if k > 0 { assert a[k] == a[1..][k - 1] && b[k] == b[1..][k - 1]; }
        }
      }
    }
  }

  // Pointer-typed children

  /**
   * A pointer-typed child that is nil on one side only is dereferenced by
   * the matcher: the comparison panics, whichever side is nil.
   */
  lemma NilPointerChild(ed: Edition, x: Node)
    ensures ComparePtr(ed, None, Some(x)) == Panic && ComparePtr(ed, Some(x), None) == Panic
    ensures CompareIface(ed, None, Some(x)) == Differ && CompareIface(ed, Some(x), None) == Differ
  {
  }

  /** Two nil children of the same field are the same value and match. */
  lemma NilChildren(ed: Edition)
    ensures ComparePtr(ed, None, None) == Same && CompareIface(ed, None, None) == Same
  {
  }

  /** Nodes of different types never match; nor do two distinct nodes of a type without a case. */
  lemma KindMismatch(ed: Edition, l: Node, r: Node)
    requires l.kind != r.kind || (!Handled(l.kind) && l != r)
    ensures Compare(ed, l, r) == Differ
  {
  }

  /** The same node matches itself at once. */
  lemma Identical(ed: Edition, n: Node)
    ensures Compare(ed, n, n) == Same
  {
  }
}
