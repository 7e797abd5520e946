/** The deliverables table of `models/ProjectFile.js`: drafts and finals
    uploaded to a project. */
module ProjectFiles {
  import opened Common
  import opened Schema
  import opened Queries

  datatype ProjectFile = ProjectFile(
    id: nat,
    projectId: int,
    uploadedBy: int,
    fileType: FileType,
    fileName: string,
    filePath: string,
    createdAt: Time)

  /** `ORDER BY created_at DESC`. */
  function NewestFirst(f: ProjectFile): seq<Term> {
    [Desc(Int(f.createdAt))]
  }

  /** `WHERE project_id = ?`. */
  function OfProject(projectId: int): ProjectFile -> bool {
    (f: ProjectFile) => f.projectId == projectId
  }

  /** How many of `fs` have type `t`. */
  function CountFileType(fs: seq<ProjectFile>, t: FileType): nat {
    if fs == [] then 0 else (if fs[0].fileType == t then 1 else 0) + CountFileType(fs[1..], t)
  }

  /** Every file is a draft or a final. */
  lemma {:induction false} DraftsAndFinals(fs: seq<ProjectFile>)
    ensures CountFileType(fs, Draft) + CountFileType(fs, Final) == |fs|
  {
    if fs != [] {
      DraftsAndFinals(fs[1..]);
    }
  }

  /** The `project_files` table. */
  class FileTable {
    var rows: map<nat, ProjectFile>
    var nextId: nat

    ghost predicate Valid()
      reads this
    {
      nextId >= 1 && forall id :: id in rows ==> rows[id].id == id && 1 <= id < nextId
    }

    constructor ()
      ensures Valid() && rows == map[]
    {
      rows := map[];
      nextId := 1;
    }

    /** `ProjectFile.create`: a type other than draft or final fails the
        CHECK, a missing name or path fails NOT NULL; otherwise the stored
        record is returned. */
    method Create(projectId: int, uploadedBy: int, fileType: string, fileName: Option<string>,
                  filePath: Option<string>, now: Time)
      returns (r: Result<ProjectFile>)
      requires Valid()
      modifies this
      ensures Valid()
      ensures ParseFileType(fileType).None? || fileName.None? || filePath.None? ==>
        r.Err? && r.error.ConstraintError? && rows == old(rows) && nextId == old(nextId)
      ensures ParseFileType(fileType).Some? && fileName.Some? && filePath.Some? ==>
        (r.Ok? && r.value == ProjectFile(old(nextId), projectId, uploadedBy, ParseFileType(fileType).value,
                                         fileName.value, filePath.value, now)
         && old(nextId) !in old(rows) && rows == old(rows)[old(nextId) := r.value] && nextId == old(nextId) + 1)
    {
      var t := ParseFileType(fileType);
      if t.None? {
        return Err(ConstraintError("CHECK constraint failed: file_type"));
      }
      if fileName.None? || filePath.None? {
        return Err(ConstraintError("NOT NULL constraint failed: project_files"));
      }
      var f := ProjectFile(nextId, projectId, uploadedBy, t.value, fileName.value, filePath.value, now);
      rows := rows[nextId := f];
      nextId := nextId + 1;
      return Ok(f);
    }

    /** `ProjectFile.findById`. */
    function FindById(id: int): (r: Option<ProjectFile>)
      reads this
      ensures r.Some? <==> id >= 0 && id in rows
      ensures r.Some? ==> r.value == rows[id]
    {
      if id >= 0 && id in rows then Some(rows[id]) else None
    }

    /** `ProjectFile.findByProject`: exactly that project's files, newest
        first. */
    function FindByProject(projectId: int): (r: seq<ProjectFile>)
      requires Valid()
      reads this
      ensures forall f :: f in r <==> f in rows.Values && f.projectId == projectId
      ensures Listing(r, Rows(rows, nextId), OfProject(projectId), NewestFirst)
    {
      SelectRows(rows, nextId, OfProject(projectId), NewestFirst)
    }

    /** `ProjectFile.delete`: `deleted` is true exactly when a row with that
        id existed; every other file stays. */
    method Delete(id: int) returns (deleted: bool)
      requires Valid()
      modifies this
      ensures Valid() && nextId == old(nextId)
      ensures deleted <==> id >= 0 && id in old(rows)
      ensures id >= 0 ==> rows == old(rows) - {id as nat}
      ensures id < 0 ==> rows == old(rows)
    {
      deleted := id >= 0 && id in rows;
      if id >= 0 {
        rows := rows - {id as nat};
      }
    }
  }
}
