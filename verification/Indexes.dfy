/**
 Index descriptions as a collection lists them, and what a create command does.  A default name is MongoDB's
 rendering of the key pattern, taken to be different for different keys.
 */
module Indexes {
  import opened Wrappers

  datatype Field =
    | Id | WorkspaceId | ApplicationId | JobId | RoundId | RuntimeSessionId | AttemptId
    | Attempt | Revision | Status | Wave | Rank
    | ScreeningGateId | InvitationBatchId
    | NextAttemptAt | LeaseExpiresAt | QueuedAt | ConfirmedAt | SendAfter | CreatedAt | CompletedAt
    | CheckpointKey | CheckpointGeneration
    | OtherField(name: string)

  datatype KeyPart = KeyPart(field: Field, direction: int)

  type Key = seq<KeyPart>

  datatype Name = Default(key: Key) | Given(text: string)

  datatype Partial = ApplicationIdExists | CheckpointTyped | OtherPartial(text: string)

  datatype Index = Index(
    name: Option<Name>,
    key: Key,
    unique: bool,
    partial: Option<Partial>,
    sparse: bool,
    hidden: bool,
    collated: bool,
    expires: Option<int>)

  function Up(f: Field): KeyPart { KeyPart(f, 1) }

  function Down(f: Field): KeyPart { KeyPart(f, -1) }

  const ID_INDEX := Index(Some(Given("_id_")), [Up(Id)], false, None, false, false, false, None)

  /** The indexes of a key, and those of a name, in their order. */
  function WithKey(indexes: seq<Index>, key: Key): seq<Index> {
    if indexes == [] then []
    else WithKey(indexes[..|indexes| - 1], key)
         + if indexes[|indexes| - 1].key == key then [indexes[|indexes| - 1]] else []
  }

  function WithName(indexes: seq<Index>, name: Name): seq<Index> {
    if indexes == [] then []
    else WithName(indexes[..|indexes| - 1], name)
         + if indexes[|indexes| - 1].name == Some(name) then [indexes[|indexes| - 1]] else []
  }

  lemma {:induction false} WithKeyMembers(indexes: seq<Index>, key: Key)
    ensures forall x :: x in WithKey(indexes, key) <==> x in indexes && x.key == key
  {
    if indexes != [] {
      WithKeyMembers(indexes[..|indexes| - 1], key);
      assert indexes == indexes[..|indexes| - 1] + [indexes[|indexes| - 1]];
    }
  }

  lemma {:induction false} WithNameMembers(indexes: seq<Index>, name: Name)
    ensures forall x :: x in WithName(indexes, name) <==> x in indexes && x.name == Some(name)
  {
    if indexes != [] {
      WithNameMembers(indexes[..|indexes| - 1], name);
      assert indexes == indexes[..|indexes| - 1] + [indexes[|indexes| - 1]];
    }
  }

  lemma {:induction false} NoneWithKey(indexes: seq<Index>, key: Key)
    requires forall x :: x in indexes ==> x.key != key
    ensures WithKey(indexes, key) == []
  {
    if indexes != [] { NoneWithKey(indexes[..|indexes| - 1], key); }
  }

  lemma {:induction false} NoneWithName(indexes: seq<Index>, name: Name)
    requires forall x :: x in indexes ==> x.name != Some(name)
    ensures WithName(indexes, name) == []
  {
    if indexes != [] { NoneWithName(indexes[..|indexes| - 1], name); }
  }

  /** One more index behind the others. */
  lemma OneMore(indexes: seq<Index>, x: Index, key: Key, name: Name)
    ensures WithKey(indexes + [x], key) == WithKey(indexes, key) + if x.key == key then [x] else []
    ensures WithName(indexes + [x], name) == WithName(indexes, name) + if x.name == Some(name) then [x] else []
  {
    assert (indexes + [x])[..|indexes|] == indexes;
  }

  /** No index has this name or this key. */
  predicate Free(indexes: seq<Index>, name: Name, key: Key) {
    forall x :: x in indexes ==> x.name != Some(name) && x.key != key
  }
}
