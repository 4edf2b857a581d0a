/** The decisions `Hyrax::Actors::FileSetActor` takes, as functions on
    plain values: which label a new FileSet gets, whether visibility was
    given explicitly, and how a Work's member list, representative and
    thumbnail change when a FileSet is attached to it or unlinked from it. */
module FileSetRules {
  import opened Wrappers
  import opened RubyText

  /** A repository identifier. Every place that holds one may hold nil. */
  type Id = string

  /** The kinds of file `create_content` is given. */
  datatype SourceFile =
    | UploadedFile(uploaderFilename: Option<string>, fileUrl: string)  // a Hyrax::UploadedFile
    | NamedIo(originalName: string)                                     // responds to original_name
    | LocalFile(path: string)                                           // a File or Tempfile

  /** `label_for(file)`: the label a FileSet takes from the file it is
      created from, given the FileSet's own `import_url`. */
  function LabelFor(file: SourceFile, importUrl: Option<string>): (chosen: string)
    ensures file.UploadedFile? && Present(file.uploaderFilename) ==> chosen == file.uploaderFilename.value
    ensures file.NamedIo? ==> chosen == file.originalName
    ensures file.UploadedFile? && !Present(file.uploaderFilename) ==> IsBasename(chosen)
    ensures file.LocalFile? ==> IsBasename(chosen)
  {
    match file
    case UploadedFile(name, url) =>
      if Present(name) then name.value
      else BasenameShape(UriPath(url)); Basename(UriPath(url))
    case NamedIo(name) => name
    case LocalFile(path) =>
      if Present(importUrl) then BasenameShape(UriPath(importUrl.value)); Basename(UriPath(importUrl.value))
      else BasenameShape(path); Basename(path)
  }

  /** The FileSet's `import_url` matters only for a plain local file: the
      label of an uploaded file or a named stream ignores it. */
  lemma LabelIgnoresImportUrlUnlessLocal(file: SourceFile, u1: Option<string>, u2: Option<string>)
    requires !file.LocalFile?
    ensures LabelFor(file, u1) == LabelFor(file, u2)
  {
  }

  /** A local file's own path is used only when no `import_url` is present;
      a present `import_url` wins whatever the path. */
  lemma LocalFileLabelPriority(dir: string, name: string, path: string, importUrl: Option<string>)
    requires name != [] && '/' !in name
    ensures !Present(importUrl) ==> LabelFor(LocalFile(dir + "/" + name), importUrl) == name
    ensures Present(importUrl) ==> LabelFor(LocalFile(path), importUrl) == Basename(UriPath(importUrl.value))
  {
    BasenameOfJoin(dir, name);
  }

  /** An uploaded file whose uploader has no filename falls back to the last
      segment of its URL's path: for an https URL on `host` when `host` is
      given, and for a bare absolute path (the form of a locally stored
      upload) otherwise, with or without a query. */
  lemma UploadedFileUrlFallback(host: Option<string>, dir: string, name: string, query: Option<string>)
    requires host.Some? ==> '/' !in host.value && '?' !in host.value && '#' !in host.value
    requires dir == [] || dir[0] == '/'
    requires host.None? ==> dir != "/" && !(|dir| >= 2 && dir[1] == '/')
    requires '?' !in dir && '#' !in dir
    requires name != [] && '/' !in name && '?' !in name && '#' !in name
    requires query.Some? ==> '#' !in query.value
    ensures LabelFor(UploadedFile(None, (if host.Some? then "https://" + host.value else "") + dir + "/" + name + QuerySuffix(query)), None) == name
  {
    var url := (if host.Some? then "https://" + host.value else "") + dir + "/" + name + QuerySuffix(query);
    UrlPathOfJoin(host, dir, name, query);
    BasenameOfJoin(dir, name);
    assert LabelFor(UploadedFile(None, url), None) == Basename(UriPath(url));
  }

  /** The path of the URLs of `UploadedFileUrlFallback` is `dir + "/" + name`. */
  lemma UrlPathOfJoin(host: Option<string>, dir: string, name: string, query: Option<string>)
    requires host.Some? ==> '/' !in host.value && '?' !in host.value && '#' !in host.value
    requires dir == [] || dir[0] == '/'
    requires host.None? ==> dir != "/" && !(|dir| >= 2 && dir[1] == '/')
    requires '?' !in dir && '#' !in dir
    requires name != [] && '/' !in name && '?' !in name && '#' !in name
    requires query.Some? ==> '#' !in query.value
    ensures UriPath((if host.Some? then "https://" + host.value else "") + dir + "/" + name + QuerySuffix(query)) == dir + "/" + name
  {
    var path := dir + "/" + name;
    assert '?' !in path && '#' !in path by {
      assert forall c :: c in path ==> c in dir || c == '/' || c in name;
    }
    if host.Some? {
      assert "https://" + host.value + dir + "/" + name + QuerySuffix(query) == "https://" + host.value + path + QuerySuffix(query);
      UriPathOfHttpsUrl(host.value, path, query);
    } else {
      assert "" + dir + "/" + name + QuerySuffix(query) == path + QuerySuffix(query);
      assert |path| == 1 || path[1] != '/' by {
        if dir == [] {
          assert path[1..] == name;
        }
      }
      UriPathOfAbsolutePath(path, query);
    }
  }

  /** The parameter names that ask for visibility to be set explicitly. */
  const VisibilityKeys: set<string> := {"visibility", "embargo_release_date", "lease_expiration_date"}

  /** `assign_visibility?(file_set_params)`: the keys of the parameters
      (already converted with `to_s`) meet the visibility names. A nil
      parameter hash counts as empty. */
  function AssignVisibility(params: Option<map<string, string>>): (explicit: bool)
    ensures explicit <==> params.Some? && ("visibility" in params.value
                                            || "embargo_release_date" in params.value
                                            || "lease_expiration_date" in params.value)
  {
    var keys := if params.Some? then params.value.Keys else {};
    var common := keys * VisibilityKeys;
    assert common != {} ==> "visibility" in keys || "embargo_release_date" in keys || "lease_expiration_date" in keys by {
      if common != {} {
        var k :| k in common;
      }
    }
    assert "visibility" in keys ==> "visibility" in common;
    assert "embargo_release_date" in keys ==> "embargo_release_date" in common;
    assert "lease_expiration_date" in keys ==> "lease_expiration_date" in common;
    common != {}
  }

  /** `blank?` on an identifier reference. */
  predicate BlankId(id: Option<Id>) {
    id.None? || BlankString(id.value)
  }

  /** The attributes of a Work this core reads and writes. */
  datatype WorkRecord = WorkRecord(
    memberIds: seq<Option<Id>>,
    representativeId: Option<Id>,
    thumbnailId: Option<Id>,
    visibility: string)

  /** The representative and the thumbnail, when set, are members. */
  predicate RefsAreMembers(w: WorkRecord) {
    && (!BlankId(w.representativeId) ==> w.representativeId in w.memberIds)
    && (!BlankId(w.thumbnailId) ==> w.thumbnailId in w.memberIds)
  }

  /** The Work as `attach_to_work` leaves it: the FileSet id appended to
      the members, and taken as representative and as thumbnail where
      those are blank. Visibility is untouched. */
  function Attach(w: WorkRecord, fileSetId: Option<Id>): (r: WorkRecord)
    ensures r.visibility == w.visibility
  {
    w.(memberIds := w.memberIds + [fileSetId],
       representativeId := if BlankId(w.representativeId) then fileSetId else w.representativeId,
       thumbnailId := if BlankId(w.thumbnailId) then fileSetId else w.thumbnailId)
  }

  /** Attaching adds exactly one occurrence of the FileSet id at the end and
      keeps every other member where it was; an id already present is
      added again, not de-duplicated. */
  lemma AttachAppends(w: WorkRecord, fileSetId: Option<Id>)
    ensures |Attach(w, fileSetId).memberIds| == |w.memberIds| + 1
    ensures Attach(w, fileSetId).memberIds[..|w.memberIds|] == w.memberIds
    ensures Attach(w, fileSetId).memberIds[|w.memberIds|] == fileSetId
    ensures multiset(Attach(w, fileSetId).memberIds)[fileSetId] == multiset(w.memberIds)[fileSetId] + 1
  {
    assert Attach(w, fileSetId).memberIds[..|w.memberIds|] == w.memberIds;
  }

  /** Representative and thumbnail are decided independently: each becomes
      the FileSet exactly when it was blank, and a value that is set is
      never overwritten. */
  lemma AttachFillsOnlyBlankRefs(w: WorkRecord, fileSetId: Option<Id>)
    ensures Attach(w, fileSetId).representativeId == fileSetId <==> BlankId(w.representativeId) || w.representativeId == fileSetId
    ensures Attach(w, fileSetId).thumbnailId == fileSetId <==> BlankId(w.thumbnailId) || w.thumbnailId == fileSetId
    ensures !BlankId(w.representativeId) ==> Attach(w, fileSetId).representativeId == w.representativeId
    ensures !BlankId(w.thumbnailId) ==> Attach(w, fileSetId).thumbnailId == w.thumbnailId
  {
  }

  /** Two FileSets attached one after the other to a Work: both are members,
      in attach order, and the first one attached keeps the
      representative and thumbnail slots it filled. */
  lemma {:induction false} AttachTwice(w: WorkRecord, a: Option<Id>, b: Option<Id>)
    requires !BlankId(a)
    ensures Attach(Attach(w, a), b).memberIds == w.memberIds + [a, b]
    ensures BlankId(w.representativeId) ==> Attach(Attach(w, a), b).representativeId == a
    ensures BlankId(w.thumbnailId) ==> Attach(Attach(w, a), b).thumbnailId == a
  {
    assert w.memberIds + [a] + [b] == w.memberIds + [a, b];
  }

  /** Attaching a FileSet keeps the representative and thumbnail pointing
      at members. */
  lemma AttachKeepsRefsMembers(w: WorkRecord, fileSetId: Option<Id>)
    requires RefsAreMembers(w)
    ensures RefsAreMembers(Attach(w, fileSetId))
  {
  }

  /** `unlink_from_work` has something to do: the thumbnail or the
      representative is this FileSet. */
  predicate UnlinkNeeded(w: WorkRecord, fileSetId: Option<Id>) {
    w.thumbnailId == fileSetId || w.representativeId == fileSetId
  }

  /** The Work as `unlink_from_work` leaves it: each of thumbnail and
      representative that is this FileSet is set to nil. */
  function Unlink(w: WorkRecord, fileSetId: Option<Id>): (r: WorkRecord)
    ensures r.memberIds == w.memberIds && r.visibility == w.visibility
  {
    w.(thumbnailId := if w.thumbnailId == fileSetId then None else w.thumbnailId,
       representativeId := if w.representativeId == fileSetId then None else w.representativeId)
  }

  /** After unlinking, neither reference points at the FileSet; a reference
      to another FileSet is kept; and nothing changes when nothing pointed
      at it. */
  lemma UnlinkClearsOnlyMatching(w: WorkRecord, fileSetId: Option<Id>)
    ensures fileSetId.Some? ==> Unlink(w, fileSetId).thumbnailId != fileSetId
    ensures fileSetId.Some? ==> Unlink(w, fileSetId).representativeId != fileSetId
    ensures w.thumbnailId != fileSetId ==> Unlink(w, fileSetId).thumbnailId == w.thumbnailId
    ensures w.representativeId != fileSetId ==> Unlink(w, fileSetId).representativeId == w.representativeId
    ensures !UnlinkNeeded(w, fileSetId) ==> Unlink(w, fileSetId) == w
  {
  }

  /** Unlinking keeps the representative and thumbnail pointing at members. */
  lemma UnlinkKeepsRefsMembers(w: WorkRecord, fileSetId: Option<Id>)
    requires RefsAreMembers(w)
    ensures RefsAreMembers(Unlink(w, fileSetId))
  {
  }

  /** Unlinking after attaching a FileSet to a Work that had no
      representative or thumbnail leaves both blank again, and the member
      list still holds the FileSet (removing it is the store's business). */
  lemma UnlinkUndoesAttachRefs(w: WorkRecord, fileSetId: Option<Id>)
    requires fileSetId.Some? && !BlankId(fileSetId)
    requires w.representativeId.None? && w.thumbnailId.None?
    ensures Unlink(Attach(w, fileSetId), fileSetId) == w.(memberIds := w.memberIds + [fileSetId])
  {
  }

  /** Two FileSets attached in turn to a Work with no representative and no
      thumbnail, then the first one unlinked (as `destroy` does): both stay
      members in attach order, and the Work is left with neither a
      representative nor a thumbnail, although the second FileSet is still
      a member. */
  lemma AttachTwoThenUnlinkFirst(w: WorkRecord, a: Id, b: Id)
    requires BlankId(w.representativeId) && BlankId(w.thumbnailId)
    requires !BlankString(a) && a != b
    ensures var after := Unlink(Attach(Attach(w, Some(a)), Some(b)), Some(a));
      && after.memberIds == w.memberIds + [Some(a), Some(b)]
      && after.representativeId.None? && after.thumbnailId.None?
      && after.visibility == w.visibility
  {
  }
}
