/** The touch-screen front end's state (bojata_gui.py:21-223): which frame
    `BojataRoot` has raised, the restart gate installed as the sampler's
    cleanup strategy, and the scan form that turns its inputs into a stored
    record. */
module Gui {
  import opened Wrappers
  import opened Form
  import RgbLine
  import Color
  import Sampler

  /** The three frames registered under their class names (bojata_gui.py:41-45). */
  datatype FrameName = HomeFrame | ScanFrame | ListFrame

  /** `rerun_app` as the sampler sees it once bojata_gui.py:230 has installed
      it: restarting or not depends on the frame raised at that moment. */
  function RerunStrategy(frame: FrameName): Sampler.Cleanup {
    Sampler.RerunApp(frame == HomeFrame)
  }

  /** A tick running under the GUI's strategy restarts the process exactly
      when HomeFrame is raised, the backlog is over the limit and `os.execv`
      succeeds; while the scan form is being filled in, an overflowing
      backlog is left alone. */
  lemma RestartsOnlyAtHome(frame: FrameName, s: Sampler.State, env: Sampler.Env)
    ensures Sampler.Tick(s, env, RerunStrategy(frame)).outcome == Sampler.Restarted <==>
            && frame == HomeFrame && Sampler.Connects(s, env)
            && env.backlog.Ok? && env.backlog.value > Sampler.SerialBufferLimit
            && !env.execRaises
  {
    Sampler.RestartIff(s, env, RerunStrategy(frame));
  }

  /** The loop of bojata_gui.py:187-190: the position of the first required
      field whose normalised value is None, if there is one. */
  method FindMissing(values: map<Field, Option<string>>) returns (missing: Option<nat>)
    requires forall k :: 0 <= k < |RequiredFields| ==> RequiredFields[k] in values
    ensures missing == FirstMissing(values, RequiredFields)
  {
    for i := 0 to |RequiredFields|
      invariant forall k :: 0 <= k < i ==> values[RequiredFields[k]].Some?
    {
      if values[RequiredFields[i]].None? {
        return Some(i);
      }
    }
    return None;
  }

  /** bojata_gui.py:180-192 without its effects: the inputs normalised, the
      clock reading added, and the loop over the required fields run. */
  method Check(inputs: map<Field, string>, now: nat) returns (v: Validation)
    requires forall k :: 0 <= k < |RequiredFields| ==> RequiredFields[k] in inputs
    ensures v == Validate(inputs, now)
  {
    var values := NormalizeInputs(inputs);
    var missing := FindMissing(values);
    if missing.Some? {
      v := Missing(RequiredFields[missing.value]);
    } else {
      v := Complete(Record(values, now));
    }
  }

  /** `BojataRoot`: the frame last raised (`curr_frame`). */
  class Root {
    var currFrame: FrameName

    /** `__init__` ends by raising HomeFrame (bojata_gui.py:47). */
    constructor ()
      ensures currFrame == HomeFrame
    {
      currFrame := HomeFrame;
    }

    /** `show_frame` (bojata_gui.py:49-52): the named frame becomes current.
        The `<<ShowFrame>>` event it generates is handled only by the scan
        frame; `ScanForm.Open` is `show_frame('ScanFrame')` with that
        handler run. */
    method ShowFrame(name: FrameName)
      modifies this
      ensures currFrame == name
    {
      currFrame := name;
    }

    /** `rerun_app` (bojata_gui.py:54-57): calls `os.execv` to replace the
        process exactly when HomeFrame is current, and otherwise does nothing.  The answer agrees
        with the strategy the sampler's tick is given. */
    method RerunApp() returns (restart: bool)
      ensures restart <==> currFrame == HomeFrame
      ensures restart <==> RerunStrategy(currFrame).homeCurrent
    {
      restart := currFrame == HomeFrame;
    }
  }

  /** The colour table; `bojata_db.persist` appends to it (bojata_gui.py:193). */
  class Database {
    var records: seq<Record>

    constructor ()
      ensures records == []
    {
      records := [];
    }

    method Persist(r: Record)
      modifies this
      ensures records == old(records) + [r]
    {
      records := records + [r];
    }
  }

  /** How one press of the ✔ button ends: a required entry is marked, the
      record is saved and HomeFrame raised, or the print prompt raises. */
  datatype SubmitOutcome = Marked | Saved | Escaped

  /** `ScanFrame`: the form's input variables, the entries painted pink, and
      the colour captured when the frame was shown. */
  class ScanForm {
    const root: Root
    const db: Database
    var inputs: map<Field, string>
    var marked: set<Field>
    var scannedColor: Option<string>

    /** Every input variable exists, as after the first `reset_ui`. */
    predicate Shown()
      reads this
    {
      inputs.Keys == Fields
    }

    /** `__init__` (bojata_gui.py:87-89) builds no inputs; they appear the
        first time the frame is shown. */
    constructor (root: Root, db: Database)
      ensures this.root == root && this.db == db
      ensures inputs == map[] && marked == {} && scannedColor == None
    {
      this.root := root;
      this.db := db;
      inputs := map[];
      marked := {};
      scannedColor := None;
    }

    /** `on_show_frame` (bojata_gui.py:91-96) with `bojata.curr_color` as
        `color`: `reset_ui` rebuilds every input (empty, `location` holding
        DEFAULT_LOCATION) and every entry unmarked, then the colour is
        captured and shown in `hex`.  Before the first matching line
        `curr_color` is unset, the handler raises after `reset_ui`, and the
        captured colour stays as it was.  A colour Tk rejects is captured,
        but the swatch's `bg=` (bojata_gui.py:94) raises TclError before
        `hex` is set, which stays empty. */
    method OnShow(color: Option<string>)
      modifies this
      ensures Shown() && marked == {}
      ensures color.Some? ==> scannedColor == color
      ensures color.None? ==> scannedColor == old(scannedColor)
      ensures inputs == ShownInputs(if color.Some? && Color.TkColor(color.value) then color.value else "")
    {
      inputs := ShownInputs(if color.Some? && Color.TkColor(color.value) then color.value else "");
      marked := {};
      if color.Some? {
        scannedColor := color;
      }
    }

    /** The scan button of HomeFrame: `root.show_frame('ScanFrame')`, whose
        `<<ShowFrame>>` event runs `on_show_frame` with `curr_color`. */
    method Open(color: Option<string>)
      modifies this, root
      ensures root.currFrame == ScanFrame
      ensures Shown() && marked == {}
      ensures color.Some? ==> scannedColor == color
      ensures color.None? ==> scannedColor == old(scannedColor)
      ensures inputs == ShownInputs(if color.Some? && Color.TkColor(color.value) then color.value else "")
    {
      root.ShowFrame(ScanFrame);
      OnShow(color);
    }

    /** Typing into one of the four text entries (bojata_gui.py:134,
        bojata_gui.py:141, bojata_gui.py:164, bojata_gui.py:171). */
    method Type(f: Field, text: string)
      requires Shown() && f in {Author, Name, Location, Comment}
      modifies this
      ensures Shown() && inputs == old(inputs)[f := text]
      ensures marked == old(marked) && scannedColor == old(scannedColor)
    {
      inputs := inputs[f := text];
    }

    /** Picking an entry of the category menu (bojata_gui.py:149): the blank
        first entry or one member's value. */
    method ChooseCategory(c: Option<ColorCategory>)
      requires Shown()
      modifies this
      ensures Shown() && inputs == old(inputs)[Category := if c.Some? then Label(c.value) else ""]
      ensures marked == old(marked) && scannedColor == old(scannedColor)
    {
      inputs := inputs[Category := if c.Some? then Label(c.value) else ""];
    }

    /** Picking an entry of the drawer menu (bojata_gui.py:157): the blank
        first entry or a drawer number, which the variable holds in decimal. */
    method ChooseDrawer(d: Option<nat>)
      requires Shown() && (d.Some? ==> d.value in DrawerChoices())
      modifies this
      ensures Shown() && inputs == old(inputs)[Drawer := if d.Some? then RgbLine.DecimalText(d.value) else ""]
      ensures marked == old(marked) && scannedColor == old(scannedColor)
    {
      inputs := inputs[Drawer := if d.Some? then RgbLine.DecimalText(d.value) else ""];
    }

    /** `submit` (bojata_gui.py:179-196) at clock reading `now`, with
        `answer` the reply to the print prompt.  A required field left
        empty is marked, and nothing is stored and no frame changes.
        Otherwise exactly the record `Validate` builds is appended; then a
        "no" raises HomeFrame, while a "yes" makes `generate_image` raise
        (its `draw_swatch` call at bojata_gui.py:215 passes the colour as
        the height, and `swatch_bounds` divides it by 3), so HomeFrame is
        not raised. */
    method Submit(now: nat, answer: bool) returns (outcome: SubmitOutcome)
      requires Shown()
      modifies this, root, db
      ensures Shown() && inputs == old(inputs) && scannedColor == old(scannedColor)
      ensures match Validate(old(inputs), now)
              case Missing(f) =>
                && outcome == Marked && marked == old(marked) + {f}
                && db.records == old(db.records) && root.currFrame == old(root.currFrame)
              case Complete(record) =>
                && marked == old(marked) && db.records == old(db.records) + [record]
                && (if answer then outcome == Escaped && root.currFrame == old(root.currFrame)
                    else outcome == Saved && root.currFrame == HomeFrame)
    {
      var v := Check(inputs, now);
      outcome := Apply(v, answer);
    }

    /** The effects of `submit` once the inputs are checked: paint the
        missing field's entry pink (bojata_gui.py:189), or append the record
        and run the print prompt (bojata_gui.py:192-196). */
    method Apply(v: Validation, answer: bool) returns (outcome: SubmitOutcome)
      requires Shown()
      modifies this, root, db
      ensures Shown() && inputs == old(inputs) && scannedColor == old(scannedColor)
      ensures match v
              case Missing(f) =>
                && outcome == Marked && marked == old(marked) + {f}
                && db.records == old(db.records) && root.currFrame == old(root.currFrame)
              case Complete(record) =>
                && marked == old(marked) && db.records == old(db.records) + [record]
                && (if answer then outcome == Escaped && root.currFrame == old(root.currFrame)
                    else outcome == Saved && root.currFrame == HomeFrame)
    {
      match v
      case Missing(f) =>
        marked := marked + {f};
        outcome := Marked;
      case Complete(record) =>
        db.Persist(record);
        if answer {
          outcome := Escaped;
        } else {
          root.ShowFrame(HomeFrame);
          outcome := Saved;
        }
    }

    /** `cancel` (bojata_gui.py:198-199): HomeFrame is raised and nothing is
        stored. */
    method Cancel()
      modifies root
      ensures root.currFrame == HomeFrame && db.records == old(db.records)
    {
      root.ShowFrame(HomeFrame);
    }
  }
}
