/** The launcher: what happens once the queue is launching, await by await. */
module AutoGameLauncherService {
  import opened Common
  import opened QueueModel
  import opened LaunchLedger
  import QS = QueueService

  class AutoGameLauncherService {
    const queueService: QS.QueueService
    var launches: seq<Launch>
    /** The arrays that launches may still hold although the queue has a new one. */
    var replaced: seq<seq<Slot>>

    ghost function View(): Ledger
      reads this, queueService
    {
      Ledger(queueService.View(), replaced, launches)
    }

    constructor (queueService: QS.QueueService)
      ensures this.queueService == queueService
      ensures View() == Ledger(queueService.View(), [], [])
    {
      this.queueService := queueService;
      launches, replaced := [], [];
    }

    /** A scheduled callback of the queue; the launcher listens to its phase changes. */
    method OnImmediate()
      requires queueService.immediates > 0 && Consistent(View())
      modifies this`launches, queueService
      ensures View() == Act(old(View()), QueueStep(StepImmediate)) && Consistent(View())
    {
      ActKeeps(View(), QueueStep(StepImmediate));
      LaunchBegins(queueService.View());
      queueService.MaybeUpdateState();
      if queueService.state == Launching {
        launches := launches + [Launch(|replaced|, Begun)];
      }
    }

    /** Launching is entered only by a callback that begins a launch. */
    lemma LaunchBegins(q: Queue)
      requires q.immediates > 0
      ensures RunImmediate(q).phase == Launching <==> RunImmediate(q).launches > q.launches
    {
    }

    /** The map winner is known: the slots are checked and the players read. */
    method CheckSlots(i: nat) returns (full: bool)
      requires i < |launches| && launches[i].stage == Begun && Consistent(View())
      modifies this`launches, queueService
      ensures View() == Act(old(View()), Check(i)) && Consistent(View())
      ensures full <==> launches[i].stage.Checked?
    {
      ActKeeps(View(), Check(i));
      var slots := if launches[i].arrayNo < |replaced| then replaced[launches[i].arrayNo] else queueService.slots;
      full := PlayerCount(slots) == |slots|;
      if full {
        launches := launches[i := launches[i].(stage := Checked(slots))];
      } else {
        Throws(i);
      }
    }

    /** The game exists: the queue gets a new slot array. */
    method FinishLaunch(i: nat)
      requires i < |launches| && launches[i].stage.Checked? && Consistent(View())
      modifies this, queueService
      ensures View() == Act(old(View()), Make(i)) && Consistent(View())
    {
      ActKeeps(View(), Make(i));
      OutSet(launches, i, Thrown);
      launches := launches[i := launches[i].(stage := Made(launches[i].stage.slots))];
      replaced := replaced + [queueService.slots];
      queueService.launches := queueService.launches - 1;
      queueService.Reset();
    }

    /** The queue was not full, no teams were found, or the database failed: nothing resets the queue. */
    method Throws(i: nat)
      requires i < |launches| && IsOut(launches[i]) && Consistent(View())
      modifies this`launches, queueService
      ensures View() == Act(old(View()), Throw(i)) && Consistent(View())
      ensures View() == Fail(old(View()), i)
    {
      ActKeeps(View(), Throw(i));
      OutSet(launches, i, Thrown);
      launches := launches[i := launches[i].(stage := Thrown)];
      queueService.launches := queueService.launches - 1;
      queueService.launchFailed := true;
    }
  }
}
