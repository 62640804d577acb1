/** The keyboard side of the game: which key codes of the evdev device are used for the
    four logical keys, and the held/released state those keys are in. */
module Input {
  datatype Key = P1Up | P1Down | P2Up | P2Down

  /** KEY_MAX of linux/input-event-codes.h: the scan looks at codes 0 .. KEY_MAX - 1. */
  const KEY_MAX: nat := 0x2ff

  /** EV_KEY of linux/input-event-codes.h. */
  const EV_KEY: nat := 0x01

  /** The logical keys waiting for a code, in the order they are handed out. */
  const UNMAPPED: seq<Key> := [P2Down, P1Up, P1Down, P2Up]

  /** The position of a key in UNMAPPED. */
  function Rank(k: Key): nat {
    match k
    case P2Down => 0
    case P1Up => 1
    case P1Down => 2
    case P2Up => 3
  }

  /** The supported codes below n, in ascending order. */
  function SupportedBelow(supported: set<nat>, n: nat): (codes: seq<nat>)
  {
    if n == 0 then [] else SupportedBelow(supported, n - 1) + if n - 1 in supported then [n - 1] else []
  }

  /** SupportedBelow lists exactly the supported codes below n, each once, ascending. */
  lemma {:induction false} SupportedBelowSorted(supported: set<nat>, n: nat)
    ensures var codes := SupportedBelow(supported, n);
      (forall i :: 0 <= i < |codes| ==> codes[i] in supported && codes[i] < n) &&
      (forall i, j :: 0 <= i < j < |codes| ==> codes[i] < codes[j]) &&
      (forall c :: c in supported && c < n ==> c in codes)
  {
    if n > 0 {
      SupportedBelowSorted(supported, n - 1);
    }
  }

  /** The map that gives codes[i] the key keys[i], built in order. */
  function Pair(codes: seq<nat>, keys: seq<Key>): map<nat, Key>
    requires |codes| == |keys|
  {
    if keys == [] then map[]
    else Pair(codes[..|codes| - 1], keys[..|keys| - 1])[codes[|codes| - 1] := keys[|keys| - 1]]
  }

  /** The outcome of the key assignment: the code-to-key map, or the error the source
      throws when the device has too few key codes. */
  datatype Outcome = Mapped(mapping: map<nat, Key>) | NotEnoughEvents

  /** What the assignment yields: the first |UNMAPPED| supported codes, in ascending order,
      paired with UNMAPPED, or NotEnoughEvents when there are fewer supported codes. */
  function KeyAssignment(supported: set<nat>): (r: Outcome)
    ensures r.NotEnoughEvents? <==> |SupportedBelow(supported, KEY_MAX)| < |UNMAPPED|
    ensures r.Mapped? ==> forall c :: c in r.mapping ==> c in supported && c < KEY_MAX
  {
    var codes := SupportedBelow(supported, KEY_MAX);
    if |codes| < |UNMAPPED| then NotEnoughEvents
    else
      var first := codes[..|UNMAPPED|];
      SupportedBelowSorted(supported, KEY_MAX);
      assert forall i :: 0 <= i < |first| ==> first[i] == codes[i];
      PairAt(first, UNMAPPED);
      Mapped(Pair(first, UNMAPPED))
  }

  lemma {:induction false} SupportedBelowPrefix(supported: set<nat>, m: nat, n: nat)
    requires m <= n
    ensures SupportedBelow(supported, m) <= SupportedBelow(supported, n)
    decreases n - m
  {
    if m < n {
      SupportedBelowPrefix(supported, m, n - 1);
    }
  }

  /** Taking one more code into the scan. */
  lemma SupportedBelowNext(supported: set<nat>, n: nat)
    ensures SupportedBelow(supported, n + 1) == SupportedBelow(supported, n) + if n in supported then [n] else []
  {
  }

  /** Giving the next code the next key extends the pairing. */
  lemma PairNext(codes: seq<nat>, code: nat, k: nat)
    requires |codes| == k < |UNMAPPED|
    ensures Pair(codes + [code], UNMAPPED[..k + 1]) == Pair(codes, UNMAPPED[..k])[code := UNMAPPED[k]]
  {
    assert (codes + [code])[..k] == codes;
    assert UNMAPPED[..k + 1][..k] == UNMAPPED[..k];
  }

  /** Once the first |UNMAPPED| supported codes have been seen, the rest of the scan
      cannot change the assignment. */
  lemma AssignmentComplete(supported: set<nat>, n: nat)
    requires n <= KEY_MAX && |SupportedBelow(supported, n)| == |UNMAPPED|
    ensures KeyAssignment(supported) == Mapped(Pair(SupportedBelow(supported, n), UNMAPPED[..|UNMAPPED|]))
  {
    SupportedBelowPrefix(supported, n, KEY_MAX);
    assert UNMAPPED[..|UNMAPPED|] == UNMAPPED;
    assert SupportedBelow(supported, KEY_MAX)[..|UNMAPPED|] == SupportedBelow(supported, n);
  }

  /** The scan of the key codes: each code the device supports takes the key at the front
      of the queue, until the queue is empty. */
  method AssignKeys(supported: set<nat>) returns (r: Outcome)
    ensures r == KeyAssignment(supported)
  {
    var unmapped := UNMAPPED;
    var mapping: map<nat, Key> := map[];
    var code: nat := 0;
    ghost var found: seq<nat> := [];
    while code < KEY_MAX
      invariant code <= KEY_MAX
      invariant found == SupportedBelow(supported, code)
      invariant |found| < |UNMAPPED|
      invariant unmapped == UNMAPPED[|found|..]
      invariant mapping == Pair(found, UNMAPPED[..|found|])
    {
      SupportedBelowNext(supported, code);
      if code in supported {
        var key := unmapped[0];
        mapping := mapping[code := key];
        unmapped := unmapped[1..];
        PairNext(found, code, |found|);
        found := found + [code];
        if unmapped == [] {
          AssignmentComplete(supported, code + 1);
          break;
        }
      }
      code := code + 1;
    }
    if unmapped != [] {
      r := NotEnoughEvents;
    } else {
      r := Mapped(mapping);
    }
  }

  /** In a pairing of distinct codes, each code gets its own key and no other code is mapped. */
  lemma {:induction false} PairAt(codes: seq<nat>, keys: seq<Key>)
    requires |codes| == |keys|
    requires forall i, j :: 0 <= i < j < |codes| ==> codes[i] < codes[j]
    ensures forall c :: c in Pair(codes, keys) <==> c in codes
    ensures forall i :: 0 <= i < |codes| ==> Pair(codes, keys)[codes[i]] == keys[i]
  {
    if keys != [] {
      var n := |codes| - 1;
      PairAt(codes[..n], keys[..n]);
      forall i | 0 <= i < |codes|
        ensures Pair(codes, keys)[codes[i]] == keys[i]
      {
        if i < n {
          assert codes[i] < codes[n];
          assert codes[..n][i] == codes[i];
        }
      }
      forall c ensures c in Pair(codes, keys) <==> c in codes {
        assert c in codes <==> c in codes[..n] || c == codes[n] by {
          assert codes == codes[..n] + [codes[n]];
        }
      }
    }
  }

  /** What a successful assignment is made of: the ascending list of all supported codes
      below KEY_MAX, whose first |UNMAPPED| entries are mapped, entry i to UNMAPPED[i]. */
  lemma AssignmentShape(supported: set<nat>, mapping: map<nat, Key>)
    requires KeyAssignment(supported) == Mapped(mapping)
    ensures var all := SupportedBelow(supported, KEY_MAX);
      |UNMAPPED| <= |all| &&
      (forall i :: 0 <= i < |all| ==> all[i] in supported && all[i] < KEY_MAX) &&
      (forall i, j :: 0 <= i < j < |all| ==> all[i] < all[j]) &&
      (forall c :: c in supported && c < KEY_MAX ==> c in all) &&
      (forall c :: c in mapping <==> c in all[..|UNMAPPED|]) &&
      (forall i :: 0 <= i < |UNMAPPED| ==> all[i] in mapping && mapping[all[i]] == UNMAPPED[i])
  {
    var all := SupportedBelow(supported, KEY_MAX);
    SupportedBelowSorted(supported, KEY_MAX);
    var codes := all[..|UNMAPPED|];
    assert forall i :: 0 <= i < |codes| ==> codes[i] == all[i];
    PairAt(codes, UNMAPPED);
  }

  /** Every mapped code is a supported key code below KEY_MAX, and each of the four logical
      keys gets exactly one code. */
  lemma AssignmentCoversKeys(supported: set<nat>, mapping: map<nat, Key>)
    requires KeyAssignment(supported) == Mapped(mapping)
    ensures forall c :: c in mapping ==> c in supported && c < KEY_MAX
    ensures |mapping| == |UNMAPPED|
    ensures forall k :: k in mapping.Values
  {
    AssignmentShape(supported, mapping);
    var all := SupportedBelow(supported, KEY_MAX);
    var codes := all[..|UNMAPPED|];
    forall k ensures k in mapping.Values {
      var i := Rank(k);
      assert UNMAPPED[i] == k;
      assert mapping[all[i]] == k;
    }
    assert forall i :: 0 <= i < |codes| ==> codes[i] == all[i];
    assert mapping.Keys == set i | 0 <= i < |codes| :: codes[i];
    CardinalityOfDistinct(codes);
  }

  /** The assignment follows the scan order: of two mapped codes the smaller holds the key
      that comes earlier in UNMAPPED, so the lowest code is P2_DOWN, then P1_UP, P1_DOWN
      and P2_UP. */
  lemma AssignmentFollowsScanOrder(supported: set<nat>, mapping: map<nat, Key>, c: nat, d: nat)
    requires KeyAssignment(supported) == Mapped(mapping)
    requires c in mapping && d in mapping && c < d
    ensures Rank(mapping[c]) < Rank(mapping[d])
  {
    AssignmentShape(supported, mapping);
    var codes := SupportedBelow(supported, KEY_MAX)[..|UNMAPPED|];
    var i :| 0 <= i < |codes| && codes[i] == c;
    var j :| 0 <= j < |codes| && codes[j] == d;
    assert mapping[c] == UNMAPPED[i] && mapping[d] == UNMAPPED[j];
  }

  /** Only the first codes are taken: a supported code that is not mapped lies above every
      mapped code. */
  lemma AssignmentIsFirstFour(supported: set<nat>, mapping: map<nat, Key>, c: nat, d: nat)
    requires KeyAssignment(supported) == Mapped(mapping)
    requires c in supported && c < KEY_MAX && c !in mapping && d in mapping
    ensures d < c
  {
    AssignmentShape(supported, mapping);
    var all := SupportedBelow(supported, KEY_MAX);
    var codes := all[..|UNMAPPED|];
    var i :| 0 <= i < |all| && all[i] == c;
    var j :| 0 <= j < |codes| && codes[j] == d;
    assert all[j] == d;
  }

  /** A strictly ascending sequence has as many distinct elements as it is long. */
  lemma {:induction false} CardinalityOfDistinct(codes: seq<nat>)
    requires forall i, j :: 0 <= i < j < |codes| ==> codes[i] < codes[j]
    ensures |set i | 0 <= i < |codes| :: codes[i]| == |codes|
  {
    if codes != [] {
      var n := |codes| - 1;
      CardinalityOfDistinct(codes[..n]);
      var front := set i | 0 <= i < n :: codes[..n][i];
      assert (set i | 0 <= i < |codes| :: codes[i]) == front + {codes[n]};
      assert codes[n] !in front;
    }
  }

  /** The assignment fails exactly when the device supports fewer than |UNMAPPED| key
      codes below KEY_MAX. */
  lemma AssignmentFailsIffTooFewCodes(supported: set<nat>)
    ensures KeyAssignment(supported) == NotEnoughEvents <==> |set c | c in supported && c < KEY_MAX| < |UNMAPPED|
  {
    SupportedCount(supported, KEY_MAX);
  }

  lemma {:induction false} SupportedCount(supported: set<nat>, n: nat)
    ensures |SupportedBelow(supported, n)| == |set c | c in supported && c < n|
  {
    if n > 0 {
      SupportedCount(supported, n - 1);
      var below := set c | c in supported && c < n - 1;
      if n - 1 in supported {
        assert (set c | c in supported && c < n) == below + {n - 1};
      } else {
        assert (set c | c in supported && c < n) == below;
      }
    }
  }

  /** The device state: the code-to-key map chosen at start-up and, per logical key,
      whether it is held. A key never seen in an event reads as released. */
  class Input {
    var keyMapping: map<nat, Key>
    var state: map<Key, bool>

    constructor (mapping: map<nat, Key>)
      ensures keyMapping == mapping && state == map[]
      ensures forall k :: !IsKeyActive(k)
    {
      keyMapping := mapping;
      state := map[];
    }

    function IsKeyActive(key: Key): (active: bool)
      reads this
      ensures active <==> key in state && state[key]
    {
      if key in state then state[key] else false
    }

    /** One event read from the device: a key event for a mapped code sets that key held
        when its value is non-zero (press or autorepeat) and released when it is zero;
        every other event leaves the state alone. */
    method HandleEvent(evType: nat, code: nat, value: int)
      modifies this`state
      ensures forall k :: IsKeyActive(k) == if evType == EV_KEY && code in keyMapping && keyMapping[code] == k then value != 0 else old(IsKeyActive(k))
    {
      if evType == EV_KEY && code in keyMapping {
        var key := keyMapping[code];
        state := state[key := value != 0];
      }
    }

    /** The keys held at the moment. */
    function Held(): (held: set<Key>)
      reads this
      ensures forall k :: k in held <==> IsKeyActive(k)
    {
      set k | k in state && state[k]
    }
  }
}
