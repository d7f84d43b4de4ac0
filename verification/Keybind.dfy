/** Key notations and the resolution of keys claimed by several actions (src/keybind.rs). */
module Keybind {
  import opened Bytes

  const ACTION_COUNT: nat := 6

  /** Normalized keys of one action, in order. */
  type Keys = seq<string>

  const RESERVED_KEY: string := "seq:^I"

  const DEFAULT_NOTATIONS: seq<seq<string>> :=
    [["down", "ctrl-n"], ["up", "ctrl-p"], ["left", "ctrl-b"], ["right", "ctrl-f"], ["enter"], ["ctrl-g"]]

  // ----- Notation -----

  /** A printable ASCII character other than an upper-case letter. */
  predicate IsPlainChar(c: char) { '!' <= c <= '~' && !('A' <= c <= 'Z') }

  /** A character as `bindkey` must see it. */
  function Escaped(c: char): string {
    if c == '^' then "\\^" else if c == '\\' then "\\\\" else [c]
  }

  function Upper(c: char): char { if 'a' <= c <= 'z' then ((c as int) - 32) as char else c }

  function Named(notation: string): Option<string> {
    match notation
    case "enter" => Some("seq:^M")
    case "tab" => Some("seq:^I")
    case "escape" => Some("seq:^[")
    case "space" => Some("seq: ")
    case "ctrl-space" => Some("seq:^@")
    case _ =>
      if notation in ["up", "down", "left", "right", "shift-tab", "home", "end", "pgup", "pgdn", "delete"]
      then Some("key:" + notation) else None
  }

  function Normalize(notation: string): Option<string> {
    if Named(notation).Some? then Named(notation)
    else if "ctrl-" <= notation then
      if |notation| == 6 && 'a' <= notation[5] <= 'z' then Some("seq:^" + [Upper(notation[5])]) else None
    else if "alt-" <= notation then
      if |notation| == 5 && IsPlainChar(notation[4]) then Some("seq:^[" + Escaped(notation[4])) else None
    else if |notation| == 1 && IsPlainChar(notation[0]) then Some("seq:" + Escaped(notation[0]))
    else None
  }

  /** The keys of a user list that remain, and whether any notation was rejected. */
  function UserKeys(notations: seq<string>): (Keys, bool) {
    if notations == [] then ([], false)
    else
      var (keys, dropped) := UserKeys(notations[..|notations| - 1]);
      match Normalize(notations[|notations| - 1])
      case None => (keys, true)
      case Some(key) =>
        if key == RESERVED_KEY then (keys, true)
        else if key in keys then (keys, dropped)
        else (keys + [key], dropped)
  }

  function NormalizeAll(notations: seq<string>): Keys {
    if notations == [] then []
    else
      NormalizeAll(notations[..|notations| - 1])
      + match Normalize(notations[|notations| - 1])
        case Some(key) => [key]
        case None => []
  }

  function DefaultKeys(action: nat): Keys
    requires action < ACTION_COUNT
  {
    NormalizeAll(DEFAULT_NOTATIONS[action])
  }

  /** A user list stands unless rejections left nothing of it; an explicitly empty one stands too. */
  function Validated(action: nat, user: Option<seq<string>>): Keys
    requires action < ACTION_COUNT
  {
    match user
    case None => DefaultKeys(action)
    case Some(notations) =>
      var (keys, dropped) := UserKeys(notations);
      if keys == [] && dropped then DefaultKeys(action) else keys
  }

  // ----- What a resolution must satisfy -----

  ghost predicate NoRepeats(keys: Keys) {
    forall i, j :: 0 <= i < j < |keys| ==> keys[i] != keys[j]
  }

  /** Keys an action may have: no repeats, and never the reserved key. */
  ghost predicate Proper(keys: Keys) { NoRepeats(keys) && RESERVED_KEY !in keys }

  ghost predicate Share(a: Keys, b: Keys) { exists key :: key in a && key in b }

  /** No key belongs to two actions. */
  ghost predicate Disjoint(specs: seq<Keys>) {
    forall i, j :: 0 <= i < j < |specs| ==> !Share(specs[i], specs[j])
  }

  /** Some notation of the list names this key. */
  ghost predicate Names(notations: seq<string>, key: string) {
    exists i :: 0 <= i < |notations| && Normalize(notations[i]) == Some(key)
  }

  /** Some notation is unknown or names the reserved key. */
  ghost predicate Rejects(notations: seq<string>) {
    exists i :: 0 <= i < |notations| && Rejected(notations[i])
  }

  ghost predicate Rejected(notation: string) {
    Normalize(notation).None? || Normalize(notation) == Some(RESERVED_KEY)
  }

  lemma NamesSnoc(notations: seq<string>, key: string)
    requires notations != []
    ensures Names(notations, key)
       <==> Names(notations[..|notations| - 1], key) || Normalize(notations[|notations| - 1]) == Some(key)
  {
    hide Normalize;
    var front := notations[..|notations| - 1];
    if Names(front, key) {
      var i :| 0 <= i < |front| && Normalize(front[i]) == Some(key);
      assert Normalize(notations[i]) == Some(key);
    }
    if i :| 0 <= i < |notations| && Normalize(notations[i]) == Some(key) {
      assert i < |front| ==> Normalize(front[i]) == Some(key);
    }
  }

  lemma RejectsSnoc(notations: seq<string>)
    requires notations != []
    ensures Rejects(notations) <==> Rejects(notations[..|notations| - 1]) || Rejected(notations[|notations| - 1])
  {
    hide Rejected;
    var front := notations[..|notations| - 1];
    if Rejects(front) {
      var i :| 0 <= i < |front| && Rejected(front[i]);
      assert Rejected(notations[i]);
    }
    if i :| 0 <= i < |notations| && Rejected(notations[i]) {
      assert i < |front| ==> Rejected(front[i]);
    }
  }

  /** A user list keeps exactly the keys it names but the reserved one, each once, and reports whether it rejected any. */
  lemma {:induction false} UserKeysAreProper(notations: seq<string>)
    ensures Proper(UserKeys(notations).0)
    ensures forall key :: key in UserKeys(notations).0 <==> key != RESERVED_KEY && Names(notations, key)
    ensures UserKeys(notations).1 <==> Rejects(notations)
  {
    hide Normalize, Names, Rejects;
    if notations == [] {
      NothingNamed();
    } else {
      UserKeysAreProper(notations[..|notations| - 1]);
      RejectsSnoc(notations);
      forall key
        ensures Names(notations, key)
           <==> Names(notations[..|notations| - 1], key) || Normalize(notations[|notations| - 1]) == Some(key)
      {
        NamesSnoc(notations, key);
      }
    }
  }

  lemma NothingNamed()
    ensures !Rejects([]) && forall key :: !Names([], key)
  {
  }

  // ----- The defaults -----

  lemma {:induction false} NormalizeTwo(a: string, b: string, x: string, y: string)
    requires Normalize(a) == Some(x) && Normalize(b) == Some(y)
    ensures NormalizeAll([a]) == [x] && NormalizeAll([a, b]) == [x, y]
  {
    hide Normalize;
    assert [a][..0] == [] && [a, b][..1] == [a];
  }

  lemma ControlKey(notation: string, c: char, key: string)
    requires notation == "ctrl-" + [c] && 'a' <= c <= 'z' && key == "seq:^" + [Upper(c)]
    ensures Normalize(notation) == Some(key)
  {
    assert notation[0] == 'c' && |notation| == 6 && notation[5] == c;
    assert notation[..5] == "ctrl-";
  }

  lemma ArrowKey(notation: string, key: string)
    requires notation in ["up", "down", "left", "right"] && key == "key:" + notation
    ensures Normalize(notation) == Some(key)
  {
    assert "right"[0] == 'r' && "enter"[0] == 'e' && "space"[0] == 's';
  }

  lemma ControlKeys()
    ensures Normalize("ctrl-n") == Some("seq:^N") && Normalize("ctrl-p") == Some("seq:^P")
    ensures Normalize("ctrl-b") == Some("seq:^B") && Normalize("ctrl-f") == Some("seq:^F")
    ensures Normalize("ctrl-g") == Some("seq:^G")
  {
    hide Normalize;
    assert "ctrl-" + ['n'] == "ctrl-n" && "seq:^" + ['N'] == "seq:^N";
    ControlKey("ctrl-n", 'n', "seq:^N");
    assert "ctrl-" + ['p'] == "ctrl-p" && "seq:^" + ['P'] == "seq:^P";
    ControlKey("ctrl-p", 'p', "seq:^P");
    assert "ctrl-" + ['b'] == "ctrl-b" && "seq:^" + ['B'] == "seq:^B";
    ControlKey("ctrl-b", 'b', "seq:^B");
    assert "ctrl-" + ['f'] == "ctrl-f" && "seq:^" + ['F'] == "seq:^F";
    ControlKey("ctrl-f", 'f', "seq:^F");
    assert "ctrl-" + ['g'] == "ctrl-g" && "seq:^" + ['G'] == "seq:^G";
    ControlKey("ctrl-g", 'g', "seq:^G");
  }

  lemma NamedKeys()
    ensures Normalize("enter") == Some("seq:^M")
    ensures Normalize("down") == Some("key:down") && Normalize("up") == Some("key:up")
    ensures Normalize("left") == Some("key:left") && Normalize("right") == Some("key:right")
  {
    assert Normalize("enter") == Some("seq:^M");
    hide Normalize;
    assert "key:" + "down" == "key:down" && "key:" + "up" == "key:up";
    assert "key:" + "left" == "key:left" && "key:" + "right" == "key:right";
    ArrowKey("down", "key:down");
    ArrowKey("up", "key:up");
    ArrowKey("left", "key:left");
    ArrowKey("right", "key:right");
  }

  /** The default keys, spelled out. */
  lemma DefaultsAre()
    ensures DefaultKeys(0) == ["key:down", "seq:^N"] && DefaultKeys(1) == ["key:up", "seq:^P"]
    ensures DefaultKeys(2) == ["key:left", "seq:^B"] && DefaultKeys(3) == ["key:right", "seq:^F"]
    ensures DefaultKeys(4) == ["seq:^M"] && DefaultKeys(5) == ["seq:^G"]
  {
    hide Normalize, NormalizeAll;
    NamedKeys();
    ControlKeys();
    NormalizeTwo("down", "ctrl-n", "key:down", "seq:^N");
    NormalizeTwo("up", "ctrl-p", "key:up", "seq:^P");
    NormalizeTwo("left", "ctrl-b", "key:left", "seq:^B");
    NormalizeTwo("right", "ctrl-f", "key:right", "seq:^F");
    NormalizeTwo("enter", "enter", "seq:^M", "seq:^M");
    NormalizeTwo("ctrl-g", "ctrl-g", "seq:^G", "seq:^G");
  }

  /** The action a default key belongs to, told from its length and last character. */
  function Owner(key: string): nat {
    if |key| == 8 then if key[7] == 'n' then 0 else 2
    else if |key| == 9 then 3
    else if |key| != 6 then ACTION_COUNT
    else
      match key[5]
      case 'N' => 0
      case 'p' => 1
      case 'P' => 1
      case 'B' => 2
      case 'F' => 3
      case 'M' => 4
      case 'G' => 5
      case _ => ACTION_COUNT
  }

  lemma DefaultsOwned(action: nat, key: string)
    requires action < ACTION_COUNT && key in DefaultKeys(action)
    ensures Owner(key) == action
  {
    DefaultsAre();
    hide DefaultKeys;
  }

  /** Default lists are proper and share no key: what the collision loop's termination rests on. */
  lemma DefaultsDisjoint(i: nat, j: nat)
    requires i < ACTION_COUNT && j < ACTION_COUNT
    ensures Proper(DefaultKeys(i))
    ensures i != j ==> !Share(DefaultKeys(i), DefaultKeys(j))
  {
    DefaultsAre();
    hide DefaultKeys, Owner;
    DefaultNotReserved(i);
    assert DefaultKeys(0)[0] != DefaultKeys(0)[1] && DefaultKeys(1)[0] != DefaultKeys(1)[1];
    assert DefaultKeys(2)[0] != DefaultKeys(2)[1] && DefaultKeys(3)[0] != DefaultKeys(3)[1];
    if Share(DefaultKeys(i), DefaultKeys(j)) {
      var key :| key in DefaultKeys(i) && key in DefaultKeys(j);
      DefaultsOwned(i, key);
      DefaultsOwned(j, key);
    }
  }

  lemma DefaultNotReserved(i: nat)
    requires i < ACTION_COUNT
    ensures RESERVED_KEY !in DefaultKeys(i)
  {
    hide DefaultKeys;
    if RESERVED_KEY in DefaultKeys(i) {
      DefaultsOwned(i, RESERVED_KEY);
    }
  }

  // ----- Resolution -----

  function OffDefault(specs: seq<Keys>): nat
    requires |specs| <= ACTION_COUNT
  {
    if specs == [] then 0
    else
      OffDefault(specs[..|specs| - 1]) + if specs[|specs| - 1] == DefaultKeys(|specs| - 1) then 0 else 1
  }

  /** Some lists put back on their defaults. */
  ghost predicate Reverts(before: seq<Keys>, after: seq<Keys>) {
    && |before| == |after| <= ACTION_COUNT
    && forall i :: 0 <= i < |before| ==> after[i] == before[i] || after[i] == DefaultKeys(i)
  }

  lemma {:induction false} RevertsLower(before: seq<Keys>, after: seq<Keys>, changed: nat)
    requires Reverts(before, after)
    ensures OffDefault(after) <= OffDefault(before)
    ensures changed < |before| && after[changed] != before[changed] ==> OffDefault(after) < OffDefault(before)
  {
    hide DefaultKeys;
    if before != [] {
      var n := |before| - 1;
      RevertsLower(before[..n], after[..n], changed);
    }
  }

  method FirstCrossDuplicate(specs: seq<Keys>) returns (dup: Option<string>)
    ensures dup.None? ==> Disjoint(specs)
    ensures dup.Some? ==> exists i, j :: 0 <= i < j < |specs| && dup.value in specs[i] && dup.value in specs[j]
  {
    for i := 0 to |specs|
      invariant forall a, b :: 0 <= a < b < |specs| && a < i ==> !Share(specs[a], specs[b])
    {
      for k := 0 to |specs[i]|
        invariant forall m, b :: 0 <= m < k && i < b < |specs| ==> specs[i][m] !in specs[b]
      {
        for j := i + 1 to |specs|
          invariant forall b :: i < b < j ==> specs[i][k] !in specs[b]
        {
          if specs[i][k] in specs[j] {
            return Some(specs[i][k]);
          }
        }
      }
    }
    return None;
  }

  /** The user's list for one action, element by element. */
  method CollectKeys(notations: seq<string>) returns (keys: Keys, dropped: bool)
    ensures (keys, dropped) == UserKeys(notations)
  {
    hide Normalize;
    keys, dropped := [], false;
    assert notations[..0] == [];
    for i := 0 to |notations|
      invariant (keys, dropped) == UserKeys(notations[..i])
    {
      assert notations[..i + 1][..i] == notations[..i];
      var key := Normalize(notations[i]);
      if key.None? || key.value == RESERVED_KEY {
        dropped := true;
      } else if key.value !in keys {
        keys := keys + [key.value];
      }
    }
    assert notations[..|notations|] == notations;
  }

  /** Every action on its default or on its validated user list. */
  ghost predicate Chosen(user: seq<Option<seq<string>>>, specs: seq<Keys>)
    requires |user| == ACTION_COUNT
  {
    && |specs| == ACTION_COUNT
    && forall i :: 0 <= i < ACTION_COUNT ==> specs[i] == DefaultKeys(i) || specs[i] == Validated(i, user[i])
  }

  lemma ValidatedIsProper(action: nat, user: Option<seq<string>>)
    requires action < ACTION_COUNT
    ensures Proper(Validated(action, user))
  {
    hide DefaultKeys, UserKeys;
    DefaultsDisjoint(action, action);
    if user.Some? {
      UserKeysAreProper(user.value);
    }
  }

  /**
   A user list stands, with exactly the keys it names but the reserved one, unless it names none and holds a notation that
   is unknown or reserved; then, and without a list, the action keeps its default.
   */
  lemma UserListStands(action: nat, user: Option<seq<string>>)
    requires action < ACTION_COUNT
    ensures var falls := user.None? || (Rejects(user.value) && forall key :: Names(user.value, key) ==> key == RESERVED_KEY);
            if falls then Validated(action, user) == DefaultKeys(action)
            else
              && NoRepeats(Validated(action, user))
              && forall key :: key in Validated(action, user) <==> key != RESERVED_KEY && Names(user.value, key)
  {
    hide DefaultKeys, UserKeys, Names, Rejects;
    if user.Some? {
      UserKeysAreProper(user.value);
      var keys := UserKeys(user.value).0;
      if keys != [] {
        assert keys[0] in keys;
      }
    }
  }

  function ValidatedAll(user: seq<Option<seq<string>>>): (specs: seq<Keys>)
    requires |user| == ACTION_COUNT
    ensures |specs| == ACTION_COUNT
  {
    seq(ACTION_COUNT, i requires 0 <= i < ACTION_COUNT => Validated(i, user[i]))
  }

  method CollectAll(user: seq<Option<seq<string>>>) returns (specs: seq<Keys>)
    requires |user| == ACTION_COUNT
    ensures specs == ValidatedAll(user)
  {
    hide DefaultKeys, UserKeys;
    specs := seq(ACTION_COUNT, i requires 0 <= i < ACTION_COUNT => DefaultKeys(i));
    for i := 0 to ACTION_COUNT
      invariant |specs| == ACTION_COUNT
      invariant forall j :: 0 <= j < i ==> specs[j] == Validated(j, user[j])
      invariant forall j :: i <= j < ACTION_COUNT ==> specs[j] == DefaultKeys(j)
    {
      if user[i].Some? {
        var keys, dropped := CollectKeys(user[i].value);
        if !(keys == [] && dropped) {
          specs := specs[i := keys];
        }
      }
    }
  }

  /** Puts every action that claims a key back on its default, which moves at least one of two claimants. */
  method RevertGroup(specs: seq<Keys>, dup: string) returns (after: seq<Keys>)
    requires |specs| == ACTION_COUNT
    requires exists i, j :: 0 <= i < j < |specs| && dup in specs[i] && dup in specs[j]
    ensures Reverts(specs, after) && OffDefault(after) < OffDefault(specs)
    ensures forall i :: 0 <= i < ACTION_COUNT && dup !in specs[i] ==> after[i] == specs[i]
  {
    hide DefaultKeys, OffDefault, Share;
    after := specs;
    for i := 0 to ACTION_COUNT
      invariant |after| == ACTION_COUNT
      invariant forall j :: 0 <= j < i ==> after[j] == if dup in specs[j] then DefaultKeys(j) else specs[j]
      invariant forall j :: i <= j < ACTION_COUNT ==> after[j] == specs[j]
    {
      if dup in after[i] {
        after := after[i := DefaultKeys(i)];
      }
    }
    ghost var first, second :| 0 <= first < second < |specs| && dup in specs[first] && dup in specs[second];
    DefaultsDisjoint(first, second);
    if specs[first] == DefaultKeys(first) && specs[second] == DefaultKeys(second) {
      SharedIsShared(specs[first], specs[second], dup);
      assert false;
    }
    RevertsLower(specs, after, first);
    RevertsLower(specs, after, second);
  }

  lemma SharedIsShared(a: Keys, b: Keys, key: string)
    requires key in a && key in b
    ensures Share(a, b)
  {
  }

  lemma ClaimedTwice(specs: seq<Keys>, key: string)
    requires exists i, j :: 0 <= i < j < |specs| && key in specs[i] && key in specs[j]
    ensures !Disjoint(specs)
  {
    var i, j :| 0 <= i < j < |specs| && key in specs[i] && key in specs[j];
    SharedIsShared(specs[i], specs[j], key);
  }

  lemma ChosenIsProper(user: seq<Option<seq<string>>>, specs: seq<Keys>)
    requires |user| == ACTION_COUNT && Chosen(user, specs)
    ensures forall i :: 0 <= i < ACTION_COUNT ==> Proper(specs[i])
  {
    hide DefaultKeys, Validated, Proper, Share;
    forall i | 0 <= i < ACTION_COUNT
      ensures Proper(specs[i])
    {
      DefaultsDisjoint(i, i);
      ValidatedIsProper(i, user[i]);
    }
  }

  /** No key of the action's validated list is on another action's validated or default list. */
  ghost predicate Unchallenged(user: seq<Option<seq<string>>>, i: nat)
    requires |user| == ACTION_COUNT && i < ACTION_COUNT
  {
    forall j :: 0 <= j < ACTION_COUNT && j != i ==>
      !Share(Validated(i, user[i]), Validated(j, user[j])) && !Share(Validated(i, user[i]), DefaultKeys(j))
  }

  /** Unchallenged actions are on their validated lists. */
  ghost predicate UnchallengedKept(user: seq<Option<seq<string>>>, specs: seq<Keys>)
    requires |user| == ACTION_COUNT == |specs|
  {
    forall i :: 0 <= i < ACTION_COUNT && Unchallenged(user, i) ==> specs[i] == Validated(i, user[i])
  }

  lemma UnchallengedIsUnclaimed(user: seq<Option<seq<string>>>, specs: seq<Keys>, key: string, i: nat)
    requires |user| == ACTION_COUNT && i < ACTION_COUNT && Chosen(user, specs)
    requires Unchallenged(user, i) && specs[i] == Validated(i, user[i])
    requires exists a, b :: 0 <= a < b < |specs| && key in specs[a] && key in specs[b]
    ensures key !in specs[i]
  {
    hide DefaultKeys, Validated;
    var a, b :| 0 <= a < b < |specs| && key in specs[a] && key in specs[b];
    var j := if a == i then b else a;
    if key in specs[i] {
      SharedIsShared(specs[i], specs[j], key);
      assert false;
    }
  }

  lemma RevertKeepsUnchallenged(user: seq<Option<seq<string>>>, specs: seq<Keys>, after: seq<Keys>, key: string)
    requires |user| == ACTION_COUNT && Chosen(user, specs) && Reverts(specs, after) && UnchallengedKept(user, specs)
    requires exists a, b :: 0 <= a < b < |specs| && key in specs[a] && key in specs[b]
    requires forall i :: 0 <= i < ACTION_COUNT && key !in specs[i] ==> after[i] == specs[i]
    ensures UnchallengedKept(user, after)
  {
    hide DefaultKeys, Validated, Unchallenged;
    forall i | 0 <= i < ACTION_COUNT && Unchallenged(user, i)
      ensures after[i] == Validated(i, user[i])
    {
      UnchallengedIsUnclaimed(user, specs, key, i);
    }
  }

  lemma CollectedIsKept(user: seq<Option<seq<string>>>)
    requires |user| == ACTION_COUNT
    ensures UnchallengedKept(user, ValidatedAll(user))
  {
    hide Validated, Unchallenged;
  }

  /**
  `resolve`: no key ends up on two actions, no list repeats a key or holds the reserved one, and each
  action has its default or its validated user list; an action that no other challenges keeps its own.
  */
  method Resolve(user: seq<Option<seq<string>>>) returns (specs: seq<Keys>)
    requires |user| == ACTION_COUNT
    ensures Chosen(user, specs) && Disjoint(specs)
    ensures forall i :: 0 <= i < ACTION_COUNT ==> Proper(specs[i])
    ensures Disjoint(ValidatedAll(user)) ==> specs == ValidatedAll(user)
    ensures UnchallengedKept(user, specs)
  {
    hide DefaultKeys, Validated, OffDefault, Proper, Disjoint, UnchallengedKept;
    specs := CollectAll(user);
    CollectedIsKept(user);
    var dup := FirstCrossDuplicate(specs);
    while dup.Some?
      invariant Chosen(user, specs)
      invariant if dup.None? then Disjoint(specs)
                else exists i, j :: 0 <= i < j < |specs| && dup.value in specs[i] && dup.value in specs[j]
      invariant Disjoint(ValidatedAll(user)) ==> specs == ValidatedAll(user)
      invariant UnchallengedKept(user, specs)
      decreases OffDefault(specs)
    {
      ClaimedTwice(specs, dup.value);
      var next := RevertGroup(specs, dup.value);
      RevertKeepsUnchallenged(user, specs, next, dup.value);
      specs := next;
      dup := FirstCrossDuplicate(specs);
    }
    ChosenIsProper(user, specs);
  }
}
