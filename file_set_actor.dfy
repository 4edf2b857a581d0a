/** `Hyrax::Actors::FileSetActor` as objects updated in place: a Work, a
    FileSet, and the actor that creates, attaches, reverts and destroys the
    FileSet. Persistence, jobs and callbacks are not called but recorded,
    in order, in the actor's event log; the answers of the store and of the
    collaborators (did the save succeed, what does the reloaded Work hold,
    did the revert succeed, what time is it) are parameters. */
module FileSetActors {
  import opened Wrappers
  import opened FileSetRules
  import RubyText

  /** An instant as `TimeService.time_in_utc` returns it. */
  type Time = int

  /** The acting user; only the user key is read here. */
  datatype User = User(userKey: string)

  /** The background jobs the actor enqueues. */
  datatype Job =
    | IngestJob(relation: string, notification: bool)
    | VisibilityCopyJob(work: Option<Id>)
    | InheritPermissionsJob(work: Option<Id>)

  /** The extension points run through `Hyrax.config.callback`. */
  datatype Hook =
    | AfterCreateFileset
    | AfterRevertContent(revisionId: string)
    | AfterDestroy(fileSetId: Option<Id>)

  /** What the actor does outside the two objects, in the order it does it. */
  datatype Event =
    | FileSetSaved
    | ContentIngested(relation: string)                  // FileActor#ingest_file, run in-process
    | Enqueued(job: Job)
    | FileSetCreateActorRun(params: map<string, string>) // the create actor stack, given the params
    | WorkSaved(work: Option<Id>)
    | FileSetDestroyed(fileSet: Option<Id>)
    | CallbackRun(hook: Hook)

  /** A parent Work. `persisted` says whether it has been stored before. */
  class Work {
    const id: Option<Id>
    const persisted: bool
    var memberIds: seq<Option<Id>>
    var representativeId: Option<Id>
    var thumbnailId: Option<Id>
    var visibility: string

    constructor (id: Option<Id>, persisted: bool, r: WorkRecord)
      ensures this.id == id && this.persisted == persisted && Record() == r
    {
      this.id := id;
      this.persisted := persisted;
      memberIds := r.memberIds;
      representativeId := r.representativeId;
      thumbnailId := r.thumbnailId;
      visibility := r.visibility;
    }

    /** The attributes this core reads and writes, as a value. */
    function Record(): (record: WorkRecord)
      reads this
    {
      WorkRecord(memberIds, representativeId, thumbnailId, visibility)
    }
  }

  /** A FileSet. `parent` is the Work the store says it belongs to: none
      until the FileSet is attached, then the Work it was attached to. */
  class FileSet {
    const id: Option<Id>
    var fileLabel: Option<string>
    var title: seq<string>
    var visibility: string
    var depositor: Option<string>
    var creator: seq<string>
    var dateUploaded: Option<Time>
    var dateModified: Option<Time>
    var importUrl: Option<string>
    var parent: Work?

    constructor (id: Option<Id>, importUrl: Option<string>)
      ensures this.id == id && this.importUrl == importUrl && parent == null
      ensures fileLabel.None? && title == [] && depositor.None? && creator == []
      ensures dateUploaded.None? && dateModified.None?
    {
      this.id := id;
      this.importUrl := importUrl;
      parent := null;
      fileLabel := None;
      title := [];
      visibility := "";
      depositor := None;
      creator := [];
      dateUploaded := None;
      dateModified := None;
    }

    /** The id of the parent Work, nil without one. */
    function ParentId(): (parentId: Option<Id>)
      reads this, parent
    {
      if parent == null then None else parent.id
    }
  }

  class FileSetActor {
    const fileSet: FileSet
    const user: User
    var log: seq<Event>

    constructor (fileSet: FileSet, user: User)
      ensures this.fileSet == fileSet && this.user == user && log == []
    {
      this.fileSet := fileSet;
      this.user := user;
      log := [];
    }

    /** `create_content(file, relation, from_url:)`. A missing label is
        derived from the file (an existing one, even empty, is kept); a
        blank title becomes the label. The FileSet is then saved; `saved`
        is the store's answer. Without a save nothing is ingested or
        enqueued and nil is returned. From a URL the content is ingested
        in-process and visibility and permission copies from the parent are
        enqueued; otherwise one ingest job is enqueued. The job enqueued
        last is returned. */
    method CreateContent(file: SourceFile, relation: string, fromUrl: bool, saved: bool) returns (job: Option<Job>)
      modifies this, fileSet`fileLabel, fileSet`title
      ensures fileSet.fileLabel == if old(fileSet.fileLabel).Some? then old(fileSet.fileLabel)
                               else Some(LabelFor(file, old(fileSet.importUrl)))
      ensures fileSet.title == if old(fileSet.title) == [] then [fileSet.fileLabel.value] else old(fileSet.title)
      ensures fileSet.title != []
      ensures !saved ==> job.None? && log == old(log)
      ensures saved && fromUrl ==>
        var work := fileSet.ParentId();
        && job == Some(InheritPermissionsJob(work))
        && log == old(log) + [FileSetSaved, ContentIngested(relation),
                              Enqueued(VisibilityCopyJob(work)), Enqueued(InheritPermissionsJob(work))]
      ensures saved && !fromUrl ==>
        && job == Some(IngestJob(relation, false))
        && log == old(log) + [FileSetSaved, Enqueued(IngestJob(relation, false))]
    {
      DefaultLabelAndTitle(file);
      if !saved {
        return None;
      }
      if fromUrl {
        var work := fileSet.ParentId();
        log := log + [FileSetSaved, ContentIngested(relation),
                      Enqueued(VisibilityCopyJob(work)), Enqueued(InheritPermissionsJob(work))];
        job := Some(InheritPermissionsJob(work));
      } else {
        log := log + [FileSetSaved, Enqueued(IngestJob(relation, false))];
        job := Some(IngestJob(relation, false));
      }
    }

    /** The label and title defaults of `create_content`: a nil label is
        derived from the file, and an empty title becomes the label. */
    method DefaultLabelAndTitle(file: SourceFile)
      modifies fileSet`fileLabel, fileSet`title
      ensures fileSet.fileLabel == if old(fileSet.fileLabel).Some? then old(fileSet.fileLabel)
                                   else Some(LabelFor(file, fileSet.importUrl))
      ensures fileSet.title == if old(fileSet.title) == [] then [fileSet.fileLabel.value] else old(fileSet.title)
    {
      if fileSet.fileLabel.None? {
        fileSet.fileLabel := Some(LabelFor(file, fileSet.importUrl));
      }
      if fileSet.title == [] {
        fileSet.title := [fileSet.fileLabel.value];
      }
    }

    /** `update_content(file, relation)`: one ingest job that notifies the
        user when it finishes. */
    method UpdateContent(relation: string) returns (job: Job)
      modifies this
      ensures job == IngestJob(relation, true)
      ensures log == old(log) + [Enqueued(job)]
    {
      job := IngestJob(relation, true);
      log := log + [Enqueued(job)];
    }

    /** `create_metadata(file_set_params)`: the user becomes depositor and
        sole creator, both dates become `now`, and the create actor stack
        runs exactly when the parameters set visibility explicitly. That
        stack is a collaborator: `applied` is the visibility it leaves on
        the FileSet. Without it the visibility is not touched. */
    method CreateMetadata(params: Option<map<string, string>>, now: Time, applied: string)
      modifies this, fileSet
      ensures fileSet.depositor == Some(user.userKey) && fileSet.creator == [user.userKey]
      ensures fileSet.dateUploaded == Some(now) && fileSet.dateModified == Some(now)
      ensures fileSet.visibility == if AssignVisibility(params) then applied else old(fileSet.visibility)
      ensures fileSet.fileLabel == old(fileSet.fileLabel) && fileSet.title == old(fileSet.title)
      ensures fileSet.importUrl == old(fileSet.importUrl) && fileSet.parent == old(fileSet.parent)
      ensures log == old(log) + if AssignVisibility(params) then [FileSetCreateActorRun(params.value)] else []
    {
      fileSet.depositor := Some(user.userKey);
      var t := now;
      fileSet.dateUploaded := Some(t);
      fileSet.dateModified := Some(t);
      fileSet.creator := [user.userKey];
      if AssignVisibility(params) {
        log := log + [FileSetCreateActorRun(params.value)];
        fileSet.visibility := applied;
      }
    }

    /** `attach_to_work(work, file_set_params)`, as one step under the
        Work's lock. A persisted Work is first replaced by `stored`, its
        current state in the store. Unless visibility was given explicitly,
        the FileSet takes the Work's visibility. The Work then gets the
        FileSet appended to its members and filling a blank representative
        and thumbnail; it is saved, from then on the store names it as the
        FileSet's parent, and the after-create callback runs. */
    method AttachToWork(work: Work, params: Option<map<string, string>>, stored: WorkRecord)
      modifies this, fileSet, work
      ensures var current := if work.persisted then stored else old(work.Record());
        && work.Record() == Attach(current, fileSet.id)
        && fileSet.visibility == if AssignVisibility(params) then old(fileSet.visibility) else current.visibility
      ensures fileSet.fileLabel == old(fileSet.fileLabel) && fileSet.title == old(fileSet.title)
      ensures fileSet.depositor == old(fileSet.depositor) && fileSet.creator == old(fileSet.creator)
      ensures fileSet.dateUploaded == old(fileSet.dateUploaded) && fileSet.dateModified == old(fileSet.dateModified)
      ensures fileSet.importUrl == old(fileSet.importUrl) && fileSet.parent == work
      ensures log == old(log) + [WorkSaved(work.id), CallbackRun(AfterCreateFileset)]
    {
      if work.persisted {
        work.memberIds := stored.memberIds;
        work.representativeId := stored.representativeId;
        work.thumbnailId := stored.thumbnailId;
        work.visibility := stored.visibility;
      }
      if !AssignVisibility(params) {
        fileSet.visibility := work.visibility;
      }
      work.memberIds := work.memberIds + [fileSet.id];
      if BlankId(work.representativeId) {
        work.representativeId := fileSet.id;
      }
      if BlankId(work.thumbnailId) {
        work.thumbnailId := fileSet.id;
      }
      log := log + [WorkSaved(work.id)];
      fileSet.parent := work;
      log := log + [CallbackRun(AfterCreateFileset)];
    }

    /** `revert_content(revision_id, relation)`: `reverted` is what the
        file actor's revert answered. On failure false is returned and no
        callback runs. */
    method RevertContent(revisionId: string, relation: string, reverted: bool) returns (ok: bool)
      modifies this
      ensures ok == reverted
      ensures log == old(log) + if reverted then [CallbackRun(AfterRevertContent(revisionId))] else []
    {
      if !reverted {
        return false;
      }
      log := log + [CallbackRun(AfterRevertContent(revisionId))];
      ok := true;
    }

    /** `unlink_from_work`: with a parent whose thumbnail or representative
        is this FileSet, those references are cleared and the parent is
        saved with `save!`; `workSaved` is the store's answer, and a failed
        save raises. Otherwise nothing happens. */
    method UnlinkFromWork(workSaved: bool) returns (raised: bool)
      modifies this, if fileSet.parent == null then {} else {fileSet.parent}
      ensures fileSet.parent == null ==> log == old(log) && !raised
      ensures fileSet.parent != null ==>
        && fileSet.parent.Record() == Unlink(old(fileSet.parent.Record()), fileSet.id)
        && (if UnlinkNeeded(old(fileSet.parent.Record()), fileSet.id)
            then raised == !workSaved && log == old(log) + if workSaved then [WorkSaved(fileSet.parent.id)] else []
            else !raised && log == old(log))
    {
      var work := fileSet.parent;
      if work == null || !(work.thumbnailId == fileSet.id || work.representativeId == fileSet.id) {
        return false;
      }
      if work.thumbnailId == fileSet.id {
        work.thumbnailId := None;
      }
      if work.representativeId == fileSet.id {
        work.representativeId := None;
      }
      if !workSaved {
        return true;
      }
      log := log + [WorkSaved(work.id)];
      raised := false;
    }

    /** `destroy`: unlink from the parent first, then remove the FileSet,
        then run the after-destroy callback with the FileSet's id. A failed
        save of the parent raises before anything is removed. */
    method Destroy(workSaved: bool) returns (raised: bool)
      modifies this, if fileSet.parent == null then {} else {fileSet.parent}
      ensures fileSet.parent != null ==> fileSet.parent.Record() == Unlink(old(fileSet.parent.Record()), fileSet.id)
      ensures var unlinkSaves := fileSet.parent != null && UnlinkNeeded(old(fileSet.parent.Record()), fileSet.id);
        && raised == (unlinkSaves && !workSaved)
        && (raised ==> log == old(log))
        && (!raised ==> log == old(log) + (if unlinkSaves then [WorkSaved(fileSet.ParentId())] else [])
                                        + [FileSetDestroyed(fileSet.id), CallbackRun(AfterDestroy(fileSet.id))])
    {
      raised := UnlinkFromWork(workSaved);
      if raised {
        return;
      }
      log := log + [FileSetDestroyed(fileSet.id)];
      log := log + [CallbackRun(AfterDestroy(fileSet.id))];
    }
  }
}
