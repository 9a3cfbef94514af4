/**
 * One mounted page component: `Builder` (variant V2) or `BuilderPage`
 * (variant V1). It holds the `embedData` state and the debounced publisher
 * the effect drives. Each handler runs in the same order the component's
 * handler does, and each commit (`setEmbedData` with a new object)
 * re-runs the effect: the cleanup `cancel()`, then `debounced(doc)`.
 * Handlers run at the publisher's current logical time; the clock only
 * moves through `Tick`.
 */
module Session {
  import opened Wrappers
  import opened Document
  import opened Engine
  import Editor
  import Presets
  import Codec
  import Sync
  import Validator
  import Lists

  class Builder {
    const variant: Variant
    const foreign: Codec.Foreign
    const loaded: Loaded
    const publisher: Sync.Debouncer
    var doc: EmbedData
    /**
     * `Some(p)` while the state is the very `presets[p]` object a preset
     * selection stored. Selecting it again hands React the same reference,
     * so React bails out and the effect does not re-run.
     */
    var presetShown: Option<Presets.PresetName>

    ghost predicate Valid()
      reads this, publisher
    {
      && publisher.Valid()
      && publisher.foreign == foreign
      && (presetShown.Some? ==> doc == Presets.Preset(presetShown.value, loaded.todayAt))
    }

    /** Mounting: the `useState` initialiser, then the effect's first `debounced(doc)` at time t. */
    constructor (v: Variant, f: Codec.Foreign, dataParam: Option<string>, loaded: Loaded, t: int)
      ensures Valid() && fresh(publisher)
      ensures variant == v && foreign == f && this.loaded == loaded
      ensures doc == InitialDocument(v, f, dataParam, loaded) && presetShown.None?
      ensures publisher.State() == Sync.Debounce(Sync.Start(t), doc)
    {
      variant := v;
      foreign := f;
      this.loaded := loaded;
      doc := InitialDocument(v, f, dataParam, loaded);
      presetShown := None;
      publisher := new Sync.Debouncer(f, t);
      new;
      publisher.Call(doc);
    }

    /** `setEmbedData(d)` with a new object, and the effect it re-runs. */
    method SetEmbedData(d: EmbedData)
      requires Valid()
      modifies this, publisher
      ensures Valid()
      ensures doc == d && presetShown.None?
      ensures publisher.State() == Sync.Reschedule(old(publisher.State()), d)
    {
      doc := d;
      presetShown := None;
      publisher.Cancel();
      publisher.Call(d);
    }

    /** `addEmbed()`; `nowAt` is the clock reading at the click. */
    method AddEmbed(nowAt: int -> string) returns (o: Outcome)
      requires Valid()
      modifies this, publisher
      ensures Valid()
      ensures o == Engine.AddEmbed(variant, old(doc), loaded, nowAt)
      ensures doc == After(old(doc), o)
      ensures o.Committed? ==> presetShown.None? && publisher.State() == Sync.Reschedule(old(publisher.State()), doc)
      ensures !o.Committed? ==> presetShown == old(presetShown) && publisher.State() == old(publisher.State())
    {
      if |doc.embeds| >= EmbedsLimit {
        o := Rejected(MaxEmbeds);
        return;
      }
      var e := NewEmbed(variant, doc, loaded, nowAt);
      var d := doc.(embeds := doc.embeds + [e]);
      SetEmbedData(d);
      o := Committed(d);
    }

    /**
     * `updateEmbed(i, key, value)`: the two length guards, then the running
     * character count of the prospective embed, then the commit.
     */
    method UpdateEmbed(i: nat, u: EmbedUpdate) returns (o: Outcome)
      requires Valid()
      modifies this, publisher
      ensures Valid()
      ensures o == Engine.UpdateEmbed(variant, old(doc), i, u)
      ensures doc == After(old(doc), o)
      ensures o.Committed? ==> presetShown.None? && publisher.State() == Sync.Reschedule(old(publisher.State()), doc)
      ensures !o.Committed? ==> presetShown == old(presetShown) && publisher.State() == old(publisher.State())
    {
      var newEmbed := Prospective(doc, i, u);
      if AuthorTooLong(u) {
        o := Rejected(AuthorNameTooLong);
        return;
      }
      if FooterTooLong(u) {
        o := Rejected(FooterTextTooLong);
        return;
      }
      if CountThrows(variant, doc, i, u) {
        o := Aborted;
        return;
      }
      var total := Validator.CalculateEmbedCharCount(newEmbed);
      if total > TotalCharsLimit {
        o := Rejected(TotalCharsExceeded);
        return;
      }
      var d := Commit(doc, i, u);
      SetEmbedData(d);
      o := Committed(d);
    }

    /** `removeEmbed(i)`: always a commit, even when i is past the end. */
    method RemoveEmbed(i: nat)
      requires Valid()
      modifies this, publisher
      ensures Valid()
      ensures doc == Engine.RemoveEmbed(old(doc), i) && presetShown.None?
      ensures publisher.State() == Sync.Reschedule(old(publisher.State()), doc)
    {
      SetEmbedData(doc.(embeds := Lists.RemoveIndex(doc.embeds, i)));
    }

    /** `updateMetadata(key, value)`: always a commit. */
    method UpdateMetadata(key: MetadataKey, value: string)
      requires Valid()
      modifies this, publisher
      ensures Valid()
      ensures doc == Engine.UpdateMetadata(old(doc), key, value) && presetShown.None?
      ensures publisher.State() == Sync.Reschedule(old(publisher.State()), doc)
    {
      SetEmbedData(Engine.UpdateMetadata(doc, key, value));
    }

    /** The field editor of embed ei (V2 only): `addField()`. */
    method AddField(ei: nat) returns (o: Outcome)
      requires Valid() && variant == V2 && ei < |doc.embeds|
      modifies this, publisher
      ensures Valid()
      ensures o == Editor.AddField(old(doc), ei)
      ensures doc == After(old(doc), o)
      ensures o.Committed? ==> presetShown.None? && publisher.State() == Sync.Reschedule(old(publisher.State()), doc)
      ensures !o.Committed? ==> presetShown == old(presetShown) && publisher.State() == old(publisher.State())
    {
      var fields := doc.embeds[ei].fields;
      if |fields| >= FieldsLimit {
        o := Rejected(MaxFields);
        return;
      }
      o := UpdateEmbed(ei, SetFields(fields + [Editor.EmptyField]));
    }

    /** `updateField(fi, p)` in the editor of embed ei. */
    method UpdateField(ei: nat, fi: nat, p: Editor.FieldPatch) returns (o: Outcome)
      requires Valid() && variant == V2 && ei < |doc.embeds|
      modifies this, publisher
      ensures Valid()
      ensures o == Editor.UpdateField(old(doc), ei, fi, p)
      ensures doc == After(old(doc), o)
      ensures o.Committed? ==> presetShown.None? && publisher.State() == Sync.Reschedule(old(publisher.State()), doc)
      ensures !o.Committed? ==> presetShown == old(presetShown) && publisher.State() == old(publisher.State())
    {
      o := UpdateEmbed(ei, SetFields(Editor.MergeAt(doc.embeds[ei].fields, fi, p)));
    }

    /** `removeField(fi)` in the editor of embed ei. */
    method RemoveField(ei: nat, fi: nat) returns (o: Outcome)
      requires Valid() && variant == V2 && ei < |doc.embeds|
      modifies this, publisher
      ensures Valid()
      ensures o == Editor.RemoveField(old(doc), ei, fi)
      ensures doc == After(old(doc), o)
      ensures o.Committed? ==> presetShown.None? && publisher.State() == Sync.Reschedule(old(publisher.State()), doc)
      ensures !o.Committed? ==> presetShown == old(presetShown) && publisher.State() == old(publisher.State())
    {
      o := UpdateEmbed(ei, SetFields(Lists.RemoveIndex(doc.embeds[ei].fields, fi)));
    }

    /**
     * "Load": the clipboard text, if it parses, replaces the whole document
     * with no shape check; otherwise nothing changes (an error toast).
     */
    method LoadFromClipboard(text: string) returns (loadedOk: bool)
      requires Valid()
      modifies this, publisher
      ensures Valid()
      ensures loadedOk <==> foreign.parse(text).Some?
      ensures loadedOk ==>
        doc == foreign.parse(text).value && presetShown.None?
        && publisher.State() == Sync.Reschedule(old(publisher.State()), doc)
      ensures !loadedOk ==>
        doc == old(doc) && presetShown == old(presetShown)
        && publisher.State() == old(publisher.State())
    {
      var parsed := foreign.parse(text);
      if parsed.None? {
        loadedOk := false;
        return;
      }
      SetEmbedData(parsed.value);
      loadedOk := true;
    }

    /**
     * The preset selector of V2's preview: the state becomes `presets[name]`
     * itself. Choosing the preset that is already the state changes nothing.
     */
    method SelectPreset(name: Presets.PresetName)
      requires Valid() && variant == V2
      modifies this, publisher
      ensures Valid()
      ensures doc == Presets.Preset(name, loaded.todayAt) && presetShown == Some(name)
      ensures publisher.State() ==
        if old(presetShown) == Some(name) then old(publisher.State())
        else Sync.Reschedule(old(publisher.State()), doc)
    {
      if presetShown == Some(name) {
        return;
      }
      SetEmbedData(Presets.Preset(name, loaded.todayAt));
      presetShown := Some(name);
    }

    /** Time passes: timers due by t run. */
    method Tick(t: int)
      requires Valid() && publisher.now <= t
      modifies publisher
      ensures Valid()
      ensures publisher.State() == Sync.AdvanceTo(foreign, old(publisher.State()), t)
    {
      publisher.Tick(t);
    }

    /** Unmounting runs the effect's cleanup: the pending publish is dropped. */
    method Unmount()
      requires Valid()
      modifies publisher
      ensures Valid()
      ensures publisher.State() == Sync.CancelPending(old(publisher.State()))
    {
      publisher.Cancel();
    }
  }
}
