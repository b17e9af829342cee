/**
 Rendering and user sync together: when only the users of a config change, syncing the running
 instance is as good as restarting it.
 */
module HotSync {
  import opened Wrappers
  import opened Json
  import opened UserSync
  import opened Machine
  import opened RuntimeSafety
  import opened Render
  import opened RenderProofs

  /** A core whose configs are JSON documents; the part that is not users is the emptied document. */
  function CoreOver(decode: Content -> Option<seq<InboundConfig>>): XrayCore {
    XrayCore(decode, (d: Content) => if d.Doc? then Doc(Frame(d.json)) else d)
  }

  /** All renderings of one config have the same frame. */
  lemma RenderingsShareFrame(
      decode: Content -> Option<seq<InboundConfig>>, config: Json, first: seq<RuntimeUser>, second: seq<RuntimeUser>,
      o: Options)
    requires RenderActive(config, first, o).Some?
    ensures RenderActive(config, second, o).Some?
    ensures CoreOver(decode).frame(Doc(RenderActive(config, first, o).value))
         == CoreOver(decode).frame(Doc(RenderActive(config, second, o).value))
  {
    FrameIgnoresUsers(config, first, o);
    RendersForAll(config, first, second, o);
    FrameIgnoresUsers(config, second, o);
    hide RenderActive, Frame;
  }

  /**
   An instance started from a rendering of the config and in step with its index takes a
   successful sync to the rendering with other users: it ends with exactly the users at every tag
   that a fresh start from the new rendering would have, and the two renderings have one frame.
   */
  lemma HotSyncRefinesRestart(
      decode: Content -> Option<seq<InboundConfig>>, o: Oracle, p: Paths, m: Machine, c: UserChangeSet,
      config: Json, users: seq<RuntimeUser>, now: int, users': seq<RuntimeUser>, now': int, opts: Options)
    requires RenderConfig(config, users, now, opts).Some?
    requires m.live.Some? && m.live.value.config == Doc(RenderConfig(config, users, now, opts).value)
    requires Mirrored(m) && !m.dirty
    requires RenderConfig(config, users', now', opts).Some? ==>
               var data := Doc(RenderConfig(config, users', now', opts).value);
               && IsDiffTo(CoreOver(decode), m, data, c)
               && (decode(data).Some? ==> Admissible(decode(data).value))
               && SyncUsers(CoreOver(decode), o, p, m, data, c).1
    ensures RenderConfig(config, users', now', opts).Some?
    ensures var data := Doc(RenderConfig(config, users', now', opts).value);
            var after := SyncUsers(CoreOver(decode), o, p, m, data, c).0;
            && after.live.Some? && LiveAs(CoreOver(decode), after.live.value, data)
            && InSync(after.users.byTag, after.live.value.tables) && !after.dirty
  {
    hide RenderActive, ActiveUsers, SyncUsers, Frame;
    RenderingsShareFrame(decode, config, ActiveUsers(users, now), ActiveUsers(users', now'), opts);
    var data := Doc(RenderConfig(config, users', now', opts).value);
    SyncRefinesRestart(CoreOver(decode), o, p, m, data, c);
    SyncSuccess(CoreOver(decode), o, p, m, data, c);
  }
}
