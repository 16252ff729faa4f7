/** The daemon's credential: a key and an agent id held in memory and in config.toml,
    with a channel that is closed when the identity changes. Each store method is one
    atomic step; channels are numbered by the generation they were made in. */
module Credentials {

  datatype Identity = Identity(key: string, agentId: string)

  /** The file: its identity and the rest of the settings, or not loadable. */
  datatype File = Config(id: Identity, settings: string) | Unloadable

  datatype Snapshot = Snapshot(id: Identity, channel: nat)

  class CredentialStore {
    var key: string
    var agentId: string
    var changed: nat          // the open channel
    var closed: set<nat>      // the channels closed so far
    var file: File

    ghost predicate Valid()
      reads this
    {
      forall ch: nat :: ch in closed <==> ch < changed
    }

    ghost function Id(): Identity
      reads this
    {
      Identity(key, agentId)
    }

    ghost function View(): Store
      reads this
    {
      Store(Id(), changed, file)
    }

    constructor (initial: Identity, file: File)
      ensures Valid() && View() == Store(initial, 0, file)
    {
      key, agentId, changed, closed, this.file := initial.key, initial.agentId, 0, {}, file;
    }

    method GetIdentity() returns (s: Snapshot)
      ensures s == Snapshot(Id(), changed)
    {
      s := Snapshot(Identity(key, agentId), changed);
    }

    method SetIdentityLocked(id: Identity) returns (moved: bool)
      requires Valid()
      modifies this
      ensures Valid() && View() == SetIdentity(old(View()), id)
      ensures moved <==> id != old(Id())
    {
      if id.key == key && id.agentId == agentId {
        return false;
      }
      key, agentId := id.key, id.agentId;
      closed := closed + {changed};
      changed := changed + 1;
      moved := true;
    }

    method RefreshIdentityLocked() returns (ok: bool)
      requires Valid()
      modifies this
      ensures Valid() && View() == Refresh(old(View()))
      ensures ok <==> old(file).Config?
    {
      if file.Unloadable? {
        return false;
      }
      var _ := SetIdentityLocked(file.id);
      ok := true;
    }

    /** persist: rewrites the identity of the file as it is now, if it loads and the
        save goes through. */
    method Persist(id: Identity, saves: bool)
      requires Valid()
      modifies this
      ensures Valid() && View() == Persisted(old(View()), id, saves)
    {
      if file.Config? && saves {
        file := file.(id := id);
      }
    }

    method Reload() returns (id: Identity, moved: bool)
      requires Valid()
      modifies this
      ensures Valid() && View() == Refresh(old(View()))
      ensures moved <==> Id() != old(Id())
      ensures old(file).Config? ==> id == Id() == old(file).id
    {
      var before := Identity(key, agentId);
      var ok := RefreshIdentityLocked();
      if !ok {
        return Identity("", ""), false;
      }
      id := Identity(key, agentId);
      moved := before != id;
    }

    method AdoptKeyForIdentity(tag: Identity, minted: string, saves: bool) returns (adopted: bool)
      requires Valid()
      modifies this
      ensures Valid() && View() == Adopt(old(View()), tag, minted, saves)
      ensures adopted <==> old(file).Config? && old(file).id == tag
    {
      var ok := RefreshIdentityLocked();
      if !ok || key != tag.key || agentId != tag.agentId {
        return false;
      }
      var _ := SetIdentityLocked(Identity(minted, tag.agentId));
      if file.Config? {
        Persist(Identity(minted, file.id.agentId), saves);
      }
      adopted := true;
    }

    /** The untagged forms: whatever identity is in force. */
    method AdoptKey(minted: string, saves: bool)
      requires Valid()
      modifies this
      ensures Valid() && View() == AdoptAny(old(View()), minted, saves)
    {
      var _ := SetIdentityLocked(Identity(minted, agentId));
      if file.Config? {
        Persist(Identity(minted, file.id.agentId), saves);
      }
    }

    method WipeKey(saves: bool)
      requires Valid()
      modifies this
      ensures Valid() && View() == WipeAny(old(View()), saves)
    {
      var _ := SetIdentityLocked(Identity("", ""));
      Persist(Identity("", ""), saves);
    }

    method WipeForIdentity(tag: Identity, saves: bool) returns (wiped: bool)
      requires Valid()
      modifies this
      ensures Valid() && View() == Wipe(old(View()), tag, saves)
      ensures wiped <==> old(file).Config? && old(file).id == tag
    {
      var ok := RefreshIdentityLocked();
      if !ok || key != tag.key || agentId != tag.agentId {
        return false;
      }
      var _ := SetIdentityLocked(Identity("", ""));
      Persist(Identity("", ""), saves);
      wiped := true;
    }
  }

  // --- The same, on values --------------------------------------------------------------------

  /** gen is the number of the open channel; every smaller one is closed. */
  datatype Store = Store(id: Identity, gen: nat, file: File)

  function SetIdentity(s: Store, id: Identity): Store {
    if id == s.id then s else s.(id := id, gen := s.gen + 1)
  }

  function Refresh(s: Store): Store {
    if s.file.Config? then SetIdentity(s, s.file.id) else s
  }

  function Persisted(s: Store, id: Identity, saves: bool): Store {
    if s.file.Config? && saves then s.(file := s.file.(id := id)) else s
  }

  function Adopt(s: Store, tag: Identity, minted: string, saves: bool): Store {
    var r := Refresh(s);
    if s.file.Config? && r.id == tag
    then Persisted(SetIdentity(r, Identity(minted, tag.agentId)), Identity(minted, tag.agentId), saves)
    else r
  }

  function Wipe(s: Store, tag: Identity, saves: bool): Store {
    var r := Refresh(s);
    if s.file.Config? && r.id == tag
    then Persisted(SetIdentity(r, Identity("", "")), Identity("", ""), saves)
    else r
  }

  function AdoptAny(s: Store, minted: string, saves: bool): Store {
    var r := SetIdentity(s, Identity(minted, s.id.agentId));
    Persisted(r, Identity(minted, if s.file.Config? then s.file.id.agentId else ""), saves)
  }

  function WipeAny(s: Store, saves: bool): Store {
    Persisted(SetIdentity(s, Identity("", "")), Identity("", ""), saves)
  }

  /** A reply tagged with any other identity than the saved one writes no file, keeps
      the user's settings, and leaves in memory at most what the file already says; a
      reply that is accepted was tagged with exactly the saved identity. */
  lemma StaleReplyIsHarmless(s: Store, tag: Identity, minted: string, saves: bool)
    ensures !(s.file.Config? && s.file.id == tag) ==>
              && Adopt(s, tag, minted, saves).file == s.file && Wipe(s, tag, saves).file == s.file
              && Adopt(s, tag, minted, saves).id == Wipe(s, tag, saves).id
              && Wipe(s, tag, saves).id == (if s.file.Config? then s.file.id else s.id)
    ensures s.file.Config? && s.file.id == tag ==>
              && Adopt(s, tag, minted, saves).id == Identity(minted, tag.agentId)
              && Wipe(s, tag, saves).id == Identity("", "")
              && Adopt(s, tag, minted, true).file == Config(Identity(minted, tag.agentId), s.file.settings)
              && Wipe(s, tag, true).file == Config(Identity("", ""), s.file.settings)
  {
  }

  // --- Every run ----------------------------------------------------------------------------------

  datatype Step =
    | Login(file: File)                       // something else rewrites config.toml
    | Poll
    | Mint(tag: Identity, minted: string, saves: bool)
    | Revoke(tag: Identity, saves: bool)
    | AdoptKey(minted: string, saves: bool)   // the untagged forms
    | WipeKey(saves: bool)

  function Next(s: Store, step: Step): Store {
    match step
    case Login(file) => s.(file := file)
    case Poll => Refresh(s)
    case Mint(tag, minted, saves) => Adopt(s, tag, minted, saves)
    case Revoke(tag, saves) => Wipe(s, tag, saves)
    case AdoptKey(minted, saves) => AdoptAny(s, minted, saves)
    case WipeKey(saves) => WipeAny(s, saves)
  }

  /** The states a run passes through, the first one included. */
  function States(s: Store, steps: seq<Step>): (r: seq<Store>)
    ensures |r| == |steps| + 1 && r[0] == s
    decreases |steps|
  {
    if steps == [] then [s] else [s] + States(Next(s, steps[0]), steps[1..])
  }

  lemma {:induction false} StatesStep(s: Store, steps: seq<Step>, i: nat)
    requires i < |steps|
    ensures States(s, steps)[i + 1] == Next(States(s, steps)[i], steps[i])
    decreases |steps|
  {
    if i > 0 {
      StatesStep(Next(s, steps[0]), steps[1..], i - 1);
    }
  }

  predicate IsOpen(s: Store, snap: Snapshot) { snap.channel >= s.gen }

  /** The step ends on another identity than it started from, or is a reply that picks
      up a newer saved one on its way, even if it then lands where it started. */
  predicate Moves(s: Store, step: Step) {
    || Next(s, step).id != s.id
    || ((step.Mint? || step.Revoke?) && s.file.Config? && s.file.id != s.id)
  }

  lemma StepGeneration(s: Store, step: Step)
    ensures Next(s, step).gen >= s.gen
    ensures Moves(s, step) <==> Next(s, step).gen > s.gen
  {
  }

  /** The channel of a snapshot taken at state i is still open at state j exactly when
      no step in between moved the identity; and then the snapshot is the identity in
      force. */
  lemma {:induction false} OpenIffUnmoved(s: Store, steps: seq<Step>, i: nat, j: nat)
    requires i <= j <= |steps|
    ensures var states := States(s, steps);
            var snap := Snapshot(states[i].id, states[i].gen);
            && states[i].gen <= states[j].gen
            && (IsOpen(states[j], snap) <==> forall k :: i <= k < j ==> !Moves(states[k], steps[k]))
            && (IsOpen(states[j], snap) ==> snap.id == states[j].id)
    decreases j - i
  {
    hide Next;
    var states := States(s, steps);
    if i < j {
      OpenIffUnmoved(s, steps, i, j - 1);
      StatesStep(s, steps, j - 1);
      StepGeneration(states[j - 1], steps[j - 1]);
    }
  }

  /** Once a sign-in is saved, nothing but a reply to that very identity, or another
      save, ever takes it out of the file. */
  lemma {:induction false} SavedLoginStays(s: Store, steps: seq<Step>, saved: Identity)
    requires s.file.Config? && s.file.id == saved
    requires forall k :: 0 <= k < |steps| ==>
               || steps[k].Poll?
               || (steps[k].Mint? && steps[k].tag != saved)
               || (steps[k].Revoke? && steps[k].tag != saved)
    ensures States(s, steps)[|steps|].file == s.file
    ensures steps != [] ==> States(s, steps)[|steps|].id == saved
    decreases |steps|
  {
    if steps != [] {
      SavedLoginStays(Next(s, steps[0]), steps[1..], saved);
    }
  }

  /** Saving one identity and minting back the one in force closes the channel although
      the step ends on the identity it started from. */
  lemma MintBackCloses() returns (s: Store, step: Step)
    ensures Next(s, step).id == s.id && Next(s, step).gen > s.gen
  {
    s := Store(Identity("old", "a"), 0, Config(Identity("new", "a"), ""));
    step := Mint(Identity("new", "a"), "old", true);
  }
}
