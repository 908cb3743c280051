/**
 * Translation of the file-system notifications delivered by the `notify`
 * crate's debounced watcher into the pipeline's `FileEvent`s
 * (src/file_watcher.rs, the `match` inside the receive loop).
 */
module FileWatcher {

  import opened Wrappers
  import D = Domain

  /** The variants of `notify::DebouncedEvent`; the error payload is not modelled. */
  datatype DebouncedEvent =
    | NoticeWrite(noticed: D.Path)
    | NoticeRemove(noticed: D.Path)
    | Create(path: D.Path)
    | Write(path: D.Path)
    | Chmod(path: D.Path)
    | Remove(path: D.Path)
    | Rename(src: D.Path, dst: D.Path)
    | Rescan
    | Error(at: Option<D.Path>)

  /** A `FileEvent` the pipeline can receive: `dst` is present exactly for a move. */
  predicate WellFormed(fe: D.FileEvent) {
    fe.dst.Some? <==> fe.op == D.FileOp.Move
  }

  /** The path an event is about: the first path it carries. */
  function FirstPath(e: DebouncedEvent): Option<D.Path> {
    match e
    case NoticeWrite(p) => Some(p)
    case NoticeRemove(p) => Some(p)
    case Create(p) => Some(p)
    case Write(p) => Some(p)
    case Chmod(p) => Some(p)
    case Remove(p) => Some(p)
    case Rename(src, _) => Some(src)
    case Rescan => None
    case Error(at) => at
  }

  /** The event the watcher loop sends for one notification, if any. */
  function Translate(e: DebouncedEvent): (r: Option<D.FileEvent>)
    ensures r.Some? <==> e.Create? || e.Write? || e.Rename? || e.Remove?
    ensures r.Some? ==> WellFormed(r.value) && Some(r.value.path) == FirstPath(e)
  {
    match e
    case Create(p) => Some(D.FileEvent(D.FileOp.Create, p, None))
    case Write(p) => Some(D.FileEvent(D.FileOp.Write, p, None))
    case Rename(src, dst) => Some(D.FileEvent(D.FileOp.Move, src, Some(dst)))
    case Remove(p) => Some(D.FileEvent(D.FileOp.Remove, p, None))
    case _ => None
  }

  /** The notification that a well-formed `FileEvent` stands for. */
  function Origin(fe: D.FileEvent): DebouncedEvent
    requires WellFormed(fe)
  {
    match fe.op
    case Create => Create(fe.path)
    case Write => Write(fe.path)
    case Move => Rename(fe.path, fe.dst.value)
    case Remove => Remove(fe.path)
  }

  /** Every well-formed `FileEvent` is produced by exactly one notification. */
  lemma TranslateOnto(fe: D.FileEvent)
    requires WellFormed(fe)
    ensures Translate(Origin(fe)) == Some(fe)
  {
  }

  lemma TranslateInjective(e: DebouncedEvent)
    requires Translate(e).Some?
    ensures Origin(Translate(e).value) == e
  {
  }

  /** The four cases of the test `inotifications`, and the silent ones. */
  lemma TranslateCases(p: D.Path, q: D.Path)
    ensures Translate(Create(p)) == Some(D.FileEvent(D.FileOp.Create, p, None))
    ensures Translate(Write(p)) == Some(D.FileEvent(D.FileOp.Write, p, None))
    ensures Translate(Rename(p, q)) == Some(D.FileEvent(D.FileOp.Move, p, Some(q)))
    ensures Translate(Remove(p)) == Some(D.FileEvent(D.FileOp.Remove, p, None))
    ensures Translate(NoticeWrite(p)) == None && Translate(NoticeRemove(p)) == None
    ensures Translate(Chmod(p)) == None && Translate(Rescan) == None && Translate(Error(Some(p))) == None
  {
  }
}
