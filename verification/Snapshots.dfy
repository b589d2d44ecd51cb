/**
 Taking a snapshot of a sandbox (internal/cli/snapshot.go and snapshot_pause.go): freeze what runs,
 copy every service's volume, then commit every service's image, and on any failure take back what
 was written; thaw on every way out. Which provider calls fail is arbitrary. Undo calls - removing an
 image or a volume, unpausing - succeed.
 */
module Snapshots {

  type Service = int

  /** The names one snapshot deals in: a service's own volume and the copy of it, the image of a
      service, and everything else there is. */
  datatype Volume = DataOf(service: Service) | CopyOf(service: Service) | OtherVolume(n: int)
  datatype Image = ImageOf(service: Service) | OtherImage(n: int)

  /** A volume's content; Partial is a copy that has begun and not ended. Whole(0) is empty. */
  datatype Content = Partial | Whole(data: int)

  type Volumes = map<Volume, Content>

  datatype Unit = Unit(ref: int, service: Service, running: bool, hasVolume: bool)

  /** What anyone looking at the engine can see. */
  datatype World = World(images: set<Image>, volumes: Volumes, frozen: set<int>)

  datatype CopyResult = Copied | Empty | CopyFailed

  datatype Saved = Saved(service: Service, image: Image, volume: bool)

  /** Refused left before anything was written; Failed says how much was written and taken back. */
  datatype Result = Done(refs: seq<Saved>) | Refused | Failed(images: nat, volumes: nat)

  predicate HasData(vs: Volumes, v: Volume) {
    v in vs && vs[v] != Whole(0)
  }

  /** The unit has something to copy. */
  predicate Copies(vs: Volumes, u: Unit) {
    u.hasVolume && HasData(vs, DataOf(u.service))
  }

  /** Every volume copy of these units is there, and is what the service's volume held. */
  ghost predicate Complete(was: Volumes, now: Volumes, units: seq<Unit>) {
    forall u :: u in units && Copies(was, u) ==> CopyOf(u.service) in now && now[CopyOf(u.service)] == was[DataOf(u.service)]
  }

  /** Some unit of this service has something to copy. */
  ghost predicate CopiedFor(was: Volumes, units: seq<Unit>, s: Service) {
    exists u :: u in units && u.service == s && Copies(was, u)
  }

  predicate HasImage(images: set<Image>) {
    exists i :: i in images && i.ImageOf?
  }

  /** An image of this snapshot is there to be found only with all its volumes. */
  ghost predicate Safe(was: Volumes, units: seq<Unit>, w: World) {
    HasImage(w.images) ==> Complete(was, w.volumes, units)
  }

  predicate AllFrozen(units: seq<Unit>, frozen: set<int>) {
    forall u :: u in units && u.running ==> u.ref in frozen
  }

  /** Nothing is written, or taken back, while a unit that was running still runs. */
  ghost predicate Still(pauses: bool, units: seq<Unit>, a: World, b: World) {
    (a.images == b.images && a.volumes == b.volumes) || (pauses ==> AllFrozen(units, b.frozen))
  }

  /** Both, at every moment from start on. */
  ghost predicate AllSafe(was: Volumes, units: seq<Unit>, pauses: bool, h: seq<World>, start: nat) {
    && (forall k :: start <= k < |h| ==> Safe(was, units, h[k]))
    && (forall k :: start < k < |h| ==> Still(pauses, units, h[k - 1], h[k]))
  }

  /** The volumes are as they were but for copies named in made. */
  ghost predicate OnlyMade(was: Volumes, now: Volumes, made: seq<Volume>) {
    && (forall v :: v in made ==> v.CopyOf?)
    && (forall v :: v !in made ==> Same(was, now, v))
  }

  /** The volumes are as they were but for copies of these units' volumes. */
  ghost predicate OnlyCopies(was: Volumes, now: Volumes, units: seq<Unit>) {
    forall v :: Same(was, now, v) || exists u :: u in units && v == CopyOf(u.service)
  }

  ghost predicate NoCopies(vs: Volumes, units: seq<Unit>) {
    forall u :: u in units ==> CopyOf(u.service) !in vs
  }

  ghost predicate Same(was: Volumes, now: Volumes, v: Volume) {
    (v in now <==> v in was) && (v in now && v in was ==> now[v] == was[v])
  }

  /** What has been copied had something to copy. */
  ghost predicate AllData(was: Volumes, made: seq<Volume>) {
    forall v :: v in made && v.CopyOf? ==> HasData(was, DataOf(v.service))
  }

  /** Services by way of their images. */
  ghost function ImagesOf(units: seq<Unit>): set<Image> {
    set u | u in units :: ImageOf(u.service)
  }

  lemma OneMoreComplete(was: Volumes, before: Volumes, now: Volumes, units: seq<Unit>, u: Unit)
    requires Complete(was, before, units) && forall v :: v != CopyOf(u.service) ==> Same(before, now, v)
    requires if Copies(was, u) then CopyOf(u.service) in now && now[CopyOf(u.service)] == was[DataOf(u.service)]
             else now == before
    ensures Complete(was, now, units + [u])
  {
    forall x | x in units + [u] && Copies(was, x)
      ensures CopyOf(x.service) in now && now[CopyOf(x.service)] == was[DataOf(x.service)]
    {
      if x.service != u.service {
        assert x in units && Same(before, now, CopyOf(x.service));
      } else if now == before && x != u {
        assert x in units;
      }
    }
  }

  /** Taking away what was made, where none of it was there before, leaves what was. */
  lemma Restored(was: Volumes, now: Volumes, made: seq<Volume>)
    requires OnlyMade(was, now, made) && forall v :: v in made ==> v !in was
    ensures now - (set v | v in made) == was
  {
    var back := now - set v | v in made;
    assert forall v :: v in back <==> v in was;
    assert forall v :: v in back ==> back[v] == was[v];
  }

  /** Likewise for images. */
  lemma ImagesBack(images: set<Image>, made: seq<Image>)
    requires !HasImage(images) && forall i :: i in made ==> i.ImageOf?
    ensures images + (set i | i in made) - (set i | i in made) == images
  {
    var added := set i | i in made;
    assert forall i :: i in added ==> i in made && i !in images;
  }

  lemma Unfrozen(frozen: set<int>, paused: seq<int>)
    requires forall r :: r in paused ==> r !in frozen
    ensures frozen + (set r | r in paused) - (set r | r in paused) == frozen
  {
    var thawed := set r | r in paused;
    assert forall r :: r in thawed ==> r in paused && r !in frozen;
  }

  /** One more safe state. */
  lemma Append(was: Volumes, units: seq<Unit>, pauses: bool, first: seq<World>, h: seq<World>, w: World)
    requires first != [] && first <= h && AllSafe(was, units, pauses, h, |first| - 1)
    requires Safe(was, units, w) && Still(pauses, units, h[|h| - 1], w)
    ensures first <= h + [w] && AllSafe(was, units, pauses, h + [w], |first| - 1)
  {
    hide Safe, Still;
  }

  predicate HasVolumes(units: seq<Unit>) {
    exists u :: u in units && u.hasVolume
  }

  /** Something is there already under the snapshot's name. */
  ghost predicate Taken(named: bool, images: set<Image>, volumes: Volumes, units: seq<Unit>) {
    HasImage(images) || (named && !NoCopies(volumes, units))
  }

  /** How many calls it takes to pause what runs. */
  function Pauses(pauses: bool, units: seq<Unit>): nat {
    if !pauses || units == [] then 0
    else Pauses(pauses, units[..|units| - 1]) + if units[|units| - 1].running then 1 else 0
  }

  lemma {:induction false} PausesGrow(units: seq<Unit>, i: nat)
    requires i <= |units|
    ensures Pauses(true, units[..i]) <= Pauses(true, units)
    decreases |units|
  {
    if i < |units| {
      var init := units[..|units| - 1];
      PausesGrow(init, i);
      assert init[..i] == units[..i];
    } else {
      assert units[..i] == units;
    }
  }

  lemma OneMorePause(units: seq<Unit>, i: nat)
    requires i < |units|
    ensures Pauses(true, units[..i + 1]) == Pauses(true, units[..i]) + if units[i].running then 1 else 0
    ensures Pauses(true, units[..i + 1]) <= Pauses(true, units)
  {
    PausesGrow(units, i + 1);
    assert units[..i + 1][..i] == units[..i];
  }

  lemma NoPauses(pauses: bool, units: seq<Unit>)
    ensures Pauses(pauses, []) == 0 && Pauses(false, units) == 0
  {
  }

  /** The call to be made next succeeds and the one after it fails. */
  ghost predicate Breaks(fails: nat -> bool, at: nat) {
    !fails(at) && fails(at + 1)
  }

  lemma FirstIsSafe(was: Volumes, units: seq<Unit>, pauses: bool, first: seq<World>, w: World)
    requires first != [] && first[|first| - 1] == w
    ensures !HasImage(w.images) ==> AllSafe(was, units, pauses, first, |first| - 1)
  {
    hide Complete, HasImage;
  }

  /** A provider, and which of its calls fail. named says whether it can create and remove volumes
      by name, pauses whether it can freeze. history is every state it has been in. */
  class Engine {
    const fails: nat -> bool
    const named: bool
    const pauses: bool
    var calls: nat
    var images: set<Image>
    var volumes: Volumes
    var frozen: set<int>
    ghost var history: seq<World>

    constructor (fails: nat -> bool, named: bool, pauses: bool, images: set<Image>, volumes: Volumes, frozen: set<int>)
      ensures this.images == images && this.volumes == volumes && this.frozen == frozen
      ensures this.named == named && this.pauses == pauses && this.fails == fails && calls == 0 && history == []
    {
      this.fails, this.named, this.pauses, calls := fails, named, pauses, 0;
      this.images, this.volumes, this.frozen, history := images, volumes, frozen, [];
    }

    ghost function Now(): World
      reads this
    {
      World(images, volumes, frozen)
    }

    /** A call numbered from one of these up to the other failed. */
    ghost predicate FailedIn(from: nat, to: nat) {
      exists n: nat :: from <= n < to && fails(n)
    }

    /** Whether the next call is let succeed. */
    method Try() returns (ok: bool)
      modifies this`calls
      ensures ok == !fails(old(calls)) && calls == old(calls) + 1
    {
      ok := !fails(calls);
      calls := calls + 1;
    }

    method Pause(ref: int) returns (ok: bool)
      modifies this`calls, this`frozen, this`history
      ensures frozen == if ok then old(frozen) + {ref} else old(frozen)
      ensures ok == !fails(old(calls)) && calls == old(calls) + 1
      ensures history == if ok then old(history) + [Now()] else old(history)
    {
      ok := Try();
      if ok {
        frozen := frozen + {ref};
        history := history + [Now()];
      }
    }

    method Unpause(ref: int)
      modifies this`frozen, this`history
      ensures frozen == old(frozen) - {ref} && history == old(history) + [Now()]
    {
      frozen := frozen - {ref};
      history := history + [Now()];
    }

    method CreateVolume(v: Volume) returns (ok: bool)
      modifies this`calls, this`volumes, this`history
      ensures ok == !fails(old(calls)) && calls == old(calls) + 1
      ensures volumes == if ok && v !in old(volumes) then old(volumes)[v := Whole(0)] else old(volumes)
      ensures history == if ok then old(history) + [Now()] else old(history)
    {
      ok := Try();
      if ok {
        if v !in volumes {
          volumes := volumes[v := Whole(0)];
        }
        history := history + [Now()];
      }
    }

    method RemoveVolume(v: Volume)
      modifies this`volumes, this`history
      ensures volumes == old(volumes) - {v} && history == old(history) + [Now()]
    {
      volumes := volumes - {v};
      history := history + [Now()];
    }

    /** A copy begins by clearing its destination; one that fails leaves it half done. Copying
        nothing is told apart before the destination is touched. */
    method CopyVolume(src: Volume, dst: Volume) returns (r: CopyResult)
      requires src != dst
      modifies this`calls, this`volumes, this`history
      ensures r == Empty ==> volumes == old(volumes) && !HasData(old(volumes), src) && history == old(history)
      ensures r == Copied ==> HasData(old(volumes), src) && volumes == old(volumes)[dst := old(volumes)[src]]
      ensures r == CopyFailed ==> volumes == old(volumes)[dst := Partial]
      ensures (r == CopyFailed <==> fails(old(calls))) && calls == old(calls) + 1
      ensures r == Copied ==> history == old(history) + [World(images, old(volumes)[dst := Partial], frozen), Now()]
      ensures r == CopyFailed ==> history == old(history) + [Now()]
    {
      var ok := Try();
      if ok && !HasData(volumes, src) {
        return Empty;
      }
      volumes := volumes[dst := Partial];
      history := history + [Now()];
      if !ok {
        return CopyFailed;
      }
      volumes := volumes[dst := volumes[src]];
      history := history + [Now()];
      assert volumes == old(volumes)[dst := old(volumes)[src]];
      return Copied;
    }

    method Commit(image: Image) returns (ok: bool)
      modifies this`calls, this`images, this`history
      ensures ok == !fails(old(calls)) && calls == old(calls) + 1
      ensures images == if ok then old(images) + {image} else old(images)
      ensures history == if ok then old(history) + [Now()] else old(history)
    {
      ok := Try();
      if ok {
        images := images + {image};
        history := history + [Now()];
      }
    }

    method RemoveImage(image: Image)
      modifies this`images, this`history
      ensures images == old(images) - {image} && history == old(history) + [Now()]
    {
      images := images - {image};
      history := history + [Now()];
    }

    method VolumeExists(v: Volume) returns (ok: bool, found: bool)
      modifies this`calls
      ensures found == (v in volumes) && ok == !fails(old(calls)) && calls == old(calls) + 1
    {
      ok := Try();
      found := v in volumes;
    }

    /** Every state since the last of first is safe, up to and with this one. */
    ghost predicate SafeSince(was: Volumes, units: seq<Unit>, first: seq<World>)
      reads this
    {
      && first != [] && first <= history && history[|history| - 1] == Now()
      && AllSafe(was, units, pauses, history, |first| - 1)
    }

    /** resume: thaw what was paused, the last first. */
    method Resume(paused: seq<int>, ghost was: Volumes, ghost units: seq<Unit>, ghost first: seq<World>)
      requires SafeSince(was, units, first)
      modifies this`frozen, this`history
      ensures frozen == old(frozen) - (set r | r in paused)
      ensures SafeSince(was, units, first)
    {
      var i := |paused|;
      while i > 0
        invariant 0 <= i <= |paused|
        invariant frozen == old(frozen) - (set r | r in paused[i..])
        invariant SafeSince(was, units, first)
      {
        i := i - 1;
        assert paused[i..] == [paused[i]] + paused[i + 1..];
        Unpause(paused[i]);
      }
      assert paused[0..] == paused;
    }

    /** pauseRunning: freeze the units that run; if one will not, thaw the others again. */
    method PauseRunning(units: seq<Unit>, ghost was: Volumes, ghost first: seq<World>) returns (ok: bool, paused: seq<int>)
      requires forall u :: u in units && u.running ==> u.ref !in frozen
      requires SafeSince(was, units, first)
      modifies this`calls, this`frozen, this`history
      ensures frozen == old(frozen) + (set r | r in paused)
      ensures !ok ==> paused == []
      ensures calls >= old(calls) && (!ok ==> FailedIn(old(calls), calls))
      ensures forall r :: r in paused ==> r !in old(frozen)
      ensures ok && pauses ==> AllFrozen(units, frozen)
      ensures (forall n: nat :: n < old(calls) + Pauses(pauses, units) ==> !fails(n)) ==>
                ok && calls == old(calls) + Pauses(pauses, units)
      ensures SafeSince(was, units, first)
    {
      hide Complete, Pauses;
      paused := [];
      NoPauses(pauses, units);
      if !pauses {
        return true, [];
      }
      for i := 0 to |units|
        invariant frozen == old(frozen) + (set r | r in paused)
        invariant forall r :: r in paused ==> r !in old(frozen)
        invariant forall j :: 0 <= j < i && units[j].running ==> units[j].ref in frozen
        invariant units[..0] == []
        invariant calls == old(calls) + Pauses(true, units[..i]) && Pauses(true, units[..i]) <= Pauses(true, units)
        invariant SafeSince(was, units, first)
      {
        OneMorePause(units, i);
        if !units[i].running {
          continue;
        }
        assert units[i] in units;
        ghost var n := calls;
        var fine := Pause(units[i].ref);
        assert !fine ==> fails(n);
        if !fine {
          Resume(paused, was, units, first);
          Unfrozen(old(frozen), paused);
          return false, [];
        }
        paused := paused + [units[i].ref];
      }
      assert units[..|units|] == units;
      return true, paused;
    }

    /** What comes before a copy: is there a volume, does its copy exist, and if not create it where
        that can be done by name. go is whether to copy, ok whether to go on at all. */
    method PrepareCopy(u: Unit, ghost was: Volumes, ghost units: seq<Unit>, ghost first: seq<World>)
        returns (ok: bool, go: bool, existed: bool)
      requires SafeSince(was, units, first) && !HasImage(images) && (pauses ==> AllFrozen(units, frozen))
      modifies this`calls, this`volumes, this`history
      ensures SafeSince(was, units, first)
      ensures ok && !go ==> !Copies(old(volumes), u)
      ensures calls >= old(calls) && (!ok ==> FailedIn(old(calls), calls))
      ensures !u.hasVolume ==> ok && !go && calls == old(calls)
      ensures !named && u.hasVolume && !fails(old(calls)) ==> go && !existed && calls == old(calls) + 1
      ensures go ==> ok && u.hasVolume && (existed ==> named && CopyOf(u.service) in old(volumes))
      ensures volumes == if go && named && CopyOf(u.service) !in old(volumes)
                         then old(volumes)[CopyOf(u.service) := Whole(0)] else old(volumes)
    {
      hide Complete, HasImage, AllFrozen;
      existed := false;
      if !u.hasVolume {
        return true, false, false;
      }
      var found;
      if named {
        ok, found := VolumeExists(DataOf(u.service));
        if !ok || !found {
          return ok, false, false;
        }
      }
      ok := Try();
      if !ok {
        return false, false, false;
      }
      if named {
        ok, found := VolumeExists(CopyOf(u.service));
        existed := ok && found;
        if !existed {
          ok := CreateVolume(CopyOf(u.service));
          return ok, ok, false;
        }
      }
      return true, true, existed;
    }

    /** The copy itself; where there was nothing to copy, a destination created for it goes again. */
    method CopyInto(src: Volume, dst: Volume, existed: bool, ghost was: Volumes, ghost units: seq<Unit>, ghost first: seq<World>)
        returns (r: CopyResult)
      requires SafeSince(was, units, first) && !HasImage(images) && (pauses ==> AllFrozen(units, frozen))
      requires src != dst
      modifies this`calls, this`volumes, this`history
      ensures SafeSince(was, units, first)
      ensures r == Empty ==> !HasData(old(volumes), src) && volumes == if !existed && named then old(volumes) - {dst} else old(volumes)
      ensures r == Copied ==> HasData(old(volumes), src) && volumes == old(volumes)[dst := old(volumes)[src]]
      ensures r == CopyFailed ==> volumes == old(volumes)[dst := Partial]
      ensures (r == CopyFailed <==> fails(old(calls))) && calls == old(calls) + 1
    {
      hide AllSafe, Complete, AllFrozen, HasImage;
      ghost var h, begun := history, World(images, volumes[dst := Partial], frozen);
      Append(was, units, pauses, first, h, begun);
      r := CopyVolume(src, dst);
      if r == Copied {
        assert history == h + [begun] + [Now()];
        Append(was, units, pauses, first, h + [begun], Now());
      } else if r == Empty && !existed && named {
        Append(was, units, pauses, first, history, World(images, volumes - {dst}, frozen));
        RemoveVolume(dst);
      }
    }

    /** One service's volume. made lists the copies this snapshot has made so far; a failure after
        the copy began leaves its destination in made too. */
    method CopyUnit(u: Unit, made: seq<Volume>, ghost was: Volumes, ghost units: seq<Unit>, ghost first: seq<World>)
        returns (ok: bool, copied: bool, more: seq<Volume>)
      requires SafeSince(was, units, first) && !HasImage(images) && (pauses ==> AllFrozen(units, frozen))
      requires OnlyMade(was, volumes, made) && AllData(was, made) && (forall v :: v in made ==> v in volumes)
      requires named ==> CopyOf(u.service) !in was
      modifies this`calls, this`volumes, this`history
      ensures SafeSince(was, units, first) && OnlyMade(was, volumes, more)
      ensures more == made || (u.hasVolume && more == made + [CopyOf(u.service)])
      ensures forall v :: v in more ==> v in volumes
      ensures forall v :: v != CopyOf(u.service) ==> Same(old(volumes), volumes, v)
      ensures ok ==> copied == Copies(was, u) && AllData(was, more)
      ensures ok && !copied ==> volumes == old(volumes)
      ensures calls >= old(calls) && (!ok ==> FailedIn(old(calls), calls))
      ensures !u.hasVolume ==> ok && !copied && more == made && calls == old(calls)
      ensures !named && u.hasVolume && Breaks(fails, old(calls)) ==> !ok && more == made + [CopyOf(u.service)]
      ensures ok && copied ==> CopyOf(u.service) in volumes && volumes[CopyOf(u.service)] == was[DataOf(u.service)]
    {
      hide Complete, HasImage, AllFrozen;
      more := made;
      var src, dst := DataOf(u.service), CopyOf(u.service);
      assert src !in made && Same(was, volumes, src);
      var go, existed;
      ok, go, existed := PrepareCopy(u, was, units, first);
      if !go {
        return ok, false, made;
      }
      hide SafeSince;
      var r := CopyInto(src, dst, existed, was, units, first);
      if r == Empty {
        assert volumes == old(volumes);
        return true, false, made;
      }
      if !existed {
        more := made + [dst];
      }
      ok, copied := r == Copied, r == Copied;
    }

    /** The volume phase. copied is the services that have a copy. */
    method CopyVolumes(units: seq<Unit>, ghost was: Volumes, ghost first: seq<World>)
        returns (ok: bool, copied: set<Service>, made: seq<Volume>)
      requires SafeSince(was, units, first) && !HasImage(images) && volumes == was && (pauses ==> AllFrozen(units, frozen))
      requires named ==> NoCopies(was, units)
      modifies this`calls, this`volumes, this`history
      ensures SafeSince(was, units, first) && OnlyMade(was, volumes, made)
      ensures forall v :: v in made ==> v in volumes && exists u :: u in units && u.hasVolume && v == CopyOf(u.service)
      ensures !named && HasVolumes(units) && Breaks(fails, old(calls)) ==> !ok && made != []
      ensures calls >= old(calls) && (!ok ==> FailedIn(old(calls), calls))
      ensures ok ==> Complete(was, volumes, units) && forall u :: u in units ==> (u.service in copied <==> CopiedFor(was, units, u.service))
    {
      copied, made := {}, [];
      for i := 0 to |units|
        invariant SafeSince(was, units, first) && OnlyMade(was, volumes, made) && AllData(was, made)
        invariant forall v :: v in made ==> v in volumes && exists u :: u in units && u.hasVolume && v == CopyOf(u.service)
        invariant Complete(was, volumes, units[..i])
        invariant !named && Breaks(fails, old(calls)) ==> calls == old(calls) && !HasVolumes(units[..i])
        invariant calls >= old(calls)
        invariant forall s :: s in copied <==> CopiedFor(was, units[..i], s)
      {
        assert units[..i + 1] == units[..i] + [units[i]];
        ghost var before := volumes;
        var fine, one, more := CopyUnit(units[i], made, was, units, first);
        if fine {
          OneMoreComplete(was, before, volumes, units[..i], units[i]);
        }
        made := more;
        if !fine {
          return false, copied, made;
        }
        if one {
          copied := copied + {units[i].service};
        }
      }
      assert units[..|units|] == units;
      return true, copied, made;
    }

    /** The image phase, with every volume in place. */
    method CommitImages(units: seq<Unit>, copied: set<Service>, ghost was: Volumes, ghost first: seq<World>)
        returns (ok: bool, refs: seq<Saved>, made: seq<Image>)
      requires SafeSince(was, units, first) && Complete(was, volumes, units) && (pauses ==> AllFrozen(units, frozen))
      modifies this`calls, this`images, this`history
      ensures SafeSince(was, units, first) && images == old(images) + (set i | i in made)
      ensures forall i :: i in made ==> i.ImageOf?
      ensures calls >= old(calls) && (!ok ==> FailedIn(old(calls), calls))
      ensures ok ==> images == old(images) + ImagesOf(units) && |refs| == |units|
      ensures ok ==> forall k :: 0 <= k < |units| ==>
        refs[k] == Saved(units[k].service, ImageOf(units[k].service), units[k].service in copied)
    {
      hide Complete, AllSafe, AllFrozen, HasImage;
      refs, made := [], [];
      for i := 0 to |units|
        invariant SafeSince(was, units, first) && images == old(images) + (set i | i in made)
        invariant forall i :: i in made ==> i.ImageOf?
        invariant calls >= old(calls)
        invariant (set i | i in made) == ImagesOf(units[..i]) && |refs| == i
        invariant forall k :: 0 <= k < i ==>
          refs[k] == Saved(units[k].service, ImageOf(units[k].service), units[k].service in copied)
      {
        assert units[..i + 1] == units[..i] + [units[i]];
        var image := ImageOf(units[i].service);
        ghost var n := calls;
        var fine := Try();
        if fine {
          Append(was, units, pauses, first, history, World(images + {image}, volumes, frozen));
          fine := Commit(image);
        }
        if !fine {
          assert fails(n) || fails(n + 1);
          return false, refs, made;
        }
        assert ImagesOf(units[..i + 1]) == ImagesOf(units[..i]) + {image};
        made := made + [image];
        assert (set x | x in made) == ImagesOf(units[..i]) + {image};
        refs := refs + [Saved(units[i].service, image, units[i].service in copied)];
      }
      assert units[..|units|] == units;
      return true, refs, made;
    }

    /** fail: the images first, then the volumes where they can be removed by name. */
    method TakeBack(madeImages: seq<Image>, madeVolumes: seq<Volume>, ghost was: Volumes, ghost units: seq<Unit>, ghost first: seq<World>)
      requires SafeSince(was, units, first) && !HasImage(images - set i | i in madeImages)
      requires pauses ==> AllFrozen(units, frozen)
      modifies this`images, this`volumes, this`history
      ensures SafeSince(was, units, first) && images == old(images) - set i | i in madeImages
      ensures volumes == if named then old(volumes) - (set v | v in madeVolumes) else old(volumes)
    {
      assert Safe(was, units, Now());
      hide Complete, AllSafe, AllFrozen;
      for i := 0 to |madeImages|
        invariant Safe(was, units, Now())
        invariant SafeSince(was, units, first) && volumes == old(volumes)
        invariant images == old(images) - set x | x in madeImages[..i]
      {
        assert madeImages[..i + 1] == madeImages[..i] + [madeImages[i]];
        Append(was, units, pauses, first, history, World(images - {madeImages[i]}, volumes, frozen));
        RemoveImage(madeImages[i]);
      }
      assert madeImages[..|madeImages|] == madeImages;
      if named {
        for i := 0 to |madeVolumes|
          invariant SafeSince(was, units, first) && images == old(images) - set x | x in madeImages
          invariant volumes == old(volumes) - set v | v in madeVolumes[..i]
        {
          assert madeVolumes[..i + 1] == madeVolumes[..i] + [madeVolumes[i]];
          Append(was, units, pauses, first, history, World(images, volumes - {madeVolumes[i]}, frozen));
          RemoveVolume(madeVolumes[i]);
        }
        assert madeVolumes[..|madeVolumes|] == madeVolumes;
      }
    }

    /** Whether anything is there under this snapshot's name; a provider that cannot say ends it. */
    method NameIsFree(units: seq<Unit>) returns (free: bool)
      modifies this`calls
      ensures free ==> !HasImage(images) && (named ==> NoCopies(volumes, units))
      ensures calls >= old(calls)
      ensures !free ==> HasImage(images) || (named && !NoCopies(volumes, units)) || FailedIn(old(calls), calls)
      ensures !named ==> calls == old(calls) + 1 && free == (!fails(old(calls)) && !HasImage(images))
    {
      var ok := Try();
      if !ok || HasImage(images) {
        return false;
      }
      if named {
        for i := 0 to |units|
          invariant forall j :: 0 <= j < i ==> CopyOf(units[j].service) !in volumes
          invariant calls > old(calls)
        {
          ghost var n := calls;
          var fine, found := VolumeExists(CopyOf(units[i].service));
          if !fine || found {
            assert !fine ==> fails(n);
            assert found ==> units[i] in units && !NoCopies(volumes, units);
            return false;
          }
        }
      }
      return true;
    }

    /** Every call succeeds up to the first copy, which fails. */
    ghost predicate FailsAtCopy(units: seq<Unit>, from: nat) {
      var copy := from + 2 + Pauses(pauses, units);
      fails(copy) && forall n: nat :: n < copy ==> !fails(n)
    }

    /** Volumes, then images, and on a failure everything back. */
    method Save(units: seq<Unit>, ghost first: seq<World>) returns (r: Result)
      requires SafeSince(volumes, units, first) && !HasImage(images) && (named ==> NoCopies(volumes, units))
      requires pauses ==> AllFrozen(units, frozen)
      modifies this`calls, this`images, this`volumes, this`history
      ensures SafeSince(old(volumes), units, first) && !r.Refused?
      ensures r.Done? ==> images == old(images) + ImagesOf(units)
      ensures r.Done? ==> Complete(old(volumes), volumes, units) && |r.refs| == |units|
      ensures r.Done? ==> forall k :: 0 <= k < |units| ==>
        r.refs[k] == Saved(units[k].service, ImageOf(units[k].service), CopiedFor(old(volumes), units, units[k].service))
      ensures OnlyCopies(old(volumes), volumes, units)
      ensures r.Failed? ==> images == old(images)
      ensures r.Failed? && (named || r.volumes == 0) ==> volumes == old(volumes)
      ensures r.Failed? && r.volumes > 0 ==> HasVolumes(units)
      ensures r.Failed? && !named && r.volumes > 0 && NoCopies(old(volumes), units) ==> volumes != old(volumes)
      ensures !named && HasVolumes(units) && Breaks(fails, old(calls)) ==> r.Failed? && r.volumes > 0
      ensures calls >= old(calls) && (r.Failed? ==> FailedIn(old(calls), calls))
    {
      ghost var was, pics := volumes, images;
      var ok, copied, made := CopyVolumes(units, was, first);
      hide Complete, AllFrozen, AllSafe;
      ghost var full := volumes;
      assert OnlyCopies(was, full, units);
      if ok {
        var refs, madeImages;
        ok, refs, madeImages := CommitImages(units, copied, was, first);
        if ok {
          return Done(refs);
        }
        ImagesBack(pics, madeImages);
        TakeBack(madeImages, made, was, units, first);
        r := Failed(|madeImages|, |made|);
      } else {
        TakeBack([], made, was, units, first);
        r := Failed(0, |made|);
      }
      if made != [] {
        assert made[0] in made && made[0] in full;
        ghost var u :| u in units && u.hasVolume && made[0] == CopyOf(u.service);
        assert NoCopies(was, units) ==> made[0] !in was;
      } else {
        Restored(was, full, []);
        assert full == was;
      }
      if named {
        Restored(was, full, made);
      }
    }

    /** Snapshot. At every moment of the call an image of the snapshot is there only if every volume
        copy is, whole, and nothing is written while a unit that was running runs. Whatever fails,
        the images and what is frozen are as before the call; so are the volumes, except where the
        backend cannot remove by name what was copied. */
    method Snapshot(units: seq<Unit>) returns (r: Result)
      requires forall u :: u in units && u.running ==> u.ref !in frozen
      modifies this
      ensures frozen == old(frozen)
      ensures old(history) + [old(Now())] <= history && history[|history| - 1] == Now()
      ensures !HasImage(old(images)) ==> AllSafe(old(volumes), units, pauses, history, |old(history)|)
      ensures r == Refused ==> images == old(images) && volumes == old(volumes)
      ensures calls >= old(calls) && (r.Failed? ==> FailedIn(old(calls), calls))
      ensures r == Refused ==> units == [] || Taken(named, old(images), old(volumes), units) || FailedIn(old(calls), calls)
      ensures units == [] || Taken(named, old(images), old(volumes), units) ==> r == Refused
      ensures units != [] && !Taken(named, old(images), old(volumes), units) && !FailedIn(old(calls), calls) ==> r.Done?
      ensures r.Done? ==> units != [] && !HasImage(old(images)) && images == old(images) + ImagesOf(units)
      ensures r.Done? ==> Complete(old(volumes), volumes, units) && OnlyCopies(old(volumes), volumes, units)
      ensures r.Done? ==> |r.refs| == |units| && forall k :: 0 <= k < |units| ==>
        r.refs[k] == Saved(units[k].service, ImageOf(units[k].service), CopiedFor(old(volumes), units, units[k].service))
      ensures r.Failed? ==> images == old(images) && OnlyCopies(old(volumes), volumes, units)
      ensures r.Failed? && (named || !HasVolumes(units)) ==> volumes == old(volumes)
      ensures r.Failed? && !named && r.volumes > 0 && NoCopies(old(volumes), units) ==> volumes != old(volumes)
      ensures !named && HasVolumes(units) && !HasImage(old(images)) && FailsAtCopy(units, old(calls)) ==> r.Failed? && r.volumes > 0
      ensures !r.Refused? && named ==> NoCopies(old(volumes), units)
    {
      hide Complete, AllFrozen, OnlyCopies, ImagesOf, CopiedFor, Pauses, AllSafe, HasImage;
      history := history + [Now()];
      ghost var first, still := history, frozen;
      assert !HasImage(images) ==> SafeSince(volumes, units, first) by {
        FirstIsSafe(volumes, units, pauses, first, Now());
      }
      if units == [] {
        return Refused;
      }
      var free := NameIsFree(units);
      if !free {
        return Refused;
      }
      assert !Taken(named, images, volumes, units);
      var ok, paused := PauseRunning(units, volumes, first);
      if !ok {
        return Refused;
      }
      hide Taken;
      r := Save(units, first);
      Resume(paused, old(volumes), units, first);
      Unfrozen(still, paused);
    }
  }

  /** On a backend without named volumes, every sandbox with a volume has a snapshot that fails and
      leaves a copy behind: the one whose first copy fails. So failing calls restore the volumes if
      and only if the backend has named volumes or the sandbox has no volume. */
  method LeavesVolumeBehind(units: seq<Unit>, pauses: bool, images: set<Image>, volumes: Volumes, frozen: set<int>)
      returns (r: Result, after: Volumes)
    requires HasVolumes(units) && !HasImage(images) && NoCopies(volumes, units)
    requires forall u :: u in units && u.running ==> u.ref !in frozen
    ensures r.Failed? && after != volumes
  {
    var copy := 2 + Pauses(pauses, units);
    var engine := new Engine(n => n == copy, false, pauses, images, volumes, frozen);
    assert engine.FailsAtCopy(units, 0);
    r := engine.Snapshot(units);
    after := engine.volumes;
  }
}
