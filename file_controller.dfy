/** The handlers of `controllers/fileController.js`: upload, listing and
    download of project files, each a chain of guards answering with an HTTP
    status.  The uploaded file is the part the multipart parser produced,
    and whether a stored path exists on disk is a predicate given by the
    caller. */
module FileController {
  import opened Common
  import opened Schema
  import Projects
  import ProjectFiles
  import Queries

  /** The file the upload middleware attached to the request. */
  datatype Upload = Upload(originalName: string, path: string)

  /** The checks `uploadFile` makes before it writes anything, in order. */
  function UploadGuard(project: Option<Projects.Project>, userId: int, file: Option<Upload>,
                       fileType: Option<string>): (r: Outcome)
    ensures file.None? ==> r == Fail(HttpError(400, "No file uploaded"))
    ensures file.Some? && !Truthy(fileType) ==> r == Fail(HttpError(400, "file_type is required (draft or final)"))
    ensures file.Some? && Truthy(fileType) && ParseFileType(fileType.value).None? ==>
      r == Fail(HttpError(400, "Invalid file type"))
    ensures file.Some? && Truthy(fileType) && ParseFileType(fileType.value).Some? && project.None? ==>
      r == Fail(HttpError(404, "Project not found"))
    ensures file.Some? && Truthy(fileType) && ParseFileType(fileType.value).Some? && project.Some?
            && project.value.editorId != userId ==>
      r == Fail(HttpError(403, "Only editor can upload files"))
    ensures r.Pass? <==>
      (file.Some? && fileType.Some? && ParseFileType(fileType.value).Some?
       && project.Some? && project.value.editorId == userId)
  {
    if file.None? then Fail(HttpError(400, "No file uploaded"))
    else if !Truthy(fileType) then Fail(HttpError(400, "file_type is required (draft or final)"))
    else if ParseFileType(fileType.value).None? then Fail(HttpError(400, "Invalid file type"))
    else if project.None? then Fail(HttpError(404, "Project not found"))
    else if userId != project.value.editorId then Fail(HttpError(403, "Only editor can upload files"))
    else Pass
  }

  /** `uploadFile`: one file record, uploaded by the caller, exactly when
      every guard passes; nothing otherwise. */
  method UploadFile(projects: Projects.ProjectTable, files: ProjectFiles.FileTable, userId: int, projectId: int,
                    file: Option<Upload>, fileType: Option<string>, now: Time)
    returns (r: Result<ProjectFiles.ProjectFile>)
    requires files.Valid()
    modifies files
    ensures files.Valid()
    ensures r.Err? <==> UploadGuard(projects.FindById(projectId), userId, file, fileType).Fail?
    ensures r.Err? ==> files.rows == old(files.rows)
    ensures r.Ok? ==>
      (r.value.projectId == projectId && r.value.uploadedBy == userId
       && FileTypeName(r.value.fileType) == fileType.value
       && r.value.fileName == file.value.originalName && r.value.filePath == file.value.path
       && r.value.id !in old(files.rows) && files.rows == old(files.rows)[r.value.id := r.value])
  {
    var guard := UploadGuard(projects.FindById(projectId), userId, file, fileType);
    if guard.Fail? {
      return Err(guard.error);
    }
    r := files.Create(projectId, userId, fileType.value, Some(file.value.originalName), Some(file.value.path), now);
  }

  /** The party check shared by listing and download. */
  function PartyGuard(project: Option<Projects.Project>, userId: int): (r: Outcome)
    ensures project.None? ==> r == Fail(HttpError(404, "Project not found"))
    ensures project.Some? && project.value.editorId != userId && project.value.clientId != userId ==>
      r == Fail(HttpError(403, "Access denied"))
    ensures r.Pass? <==> project.Some? && (project.value.editorId == userId || project.value.clientId == userId)
  {
    if project.None? then Fail(HttpError(404, "Project not found"))
    else if userId != project.value.editorId && userId != project.value.clientId then
      Fail(HttpError(403, "Access denied"))
    else Pass
  }

  /** `getProjectFiles`: only a party to the project sees its files. */
  function GetProjectFiles(projects: Projects.ProjectTable, files: ProjectFiles.FileTable, userId: int,
                           projectId: int): (r: Result<seq<ProjectFiles.ProjectFile>>)
    requires files.Valid()
    reads projects, files
    ensures r.Ok? <==> PartyGuard(projects.FindById(projectId), userId).Pass?
    ensures r.Err? ==> r.error == PartyGuard(projects.FindById(projectId), userId).error
    ensures r.Ok? ==> forall f :: f in r.value <==> f in files.rows.Values && f.projectId == projectId
    ensures r.Ok? ==> Queries.Listing(r.value, Queries.Rows(files.rows, files.nextId),
                                      ProjectFiles.OfProject(projectId), ProjectFiles.NewestFirst)
  {
    var access := PartyGuard(projects.FindById(projectId), userId);
    if access.Fail? then Err(access.error) else Ok(files.FindByProject(projectId))
  }

  /** `downloadFile`: unknown file, unknown project, non-party, then a path
      missing on disk, in this order. */
  function DownloadFile(projects: Projects.ProjectTable, files: ProjectFiles.FileTable, userId: int, fileId: int,
                        onDisk: string -> bool): (r: Result<ProjectFiles.ProjectFile>)
    reads projects, files
    ensures files.FindById(fileId).None? ==> r == Err(HttpError(404, "File not found"))
    ensures files.FindById(fileId).Some? && projects.FindById(files.FindById(fileId).value.projectId).None? ==>
      r == Err(HttpError(404, "Project not found"))
    ensures files.FindById(fileId).Some? && PartyGuard(projects.FindById(files.FindById(fileId).value.projectId), userId).Fail? ==>
      r == Err(PartyGuard(projects.FindById(files.FindById(fileId).value.projectId), userId).error)
    ensures files.FindById(fileId).Some? && PartyGuard(projects.FindById(files.FindById(fileId).value.projectId), userId).Pass?
            && !onDisk(files.FindById(fileId).value.filePath) ==>
      r == Err(HttpError(404, "File missing on disk"))
    ensures r.Ok? <==>
      (files.FindById(fileId).Some?
       && PartyGuard(projects.FindById(files.FindById(fileId).value.projectId), userId).Pass?
       && onDisk(files.FindById(fileId).value.filePath))
    ensures r.Ok? ==> r.value == files.rows[fileId]
  {
    var f := files.FindById(fileId);
    if f.None? then Err(HttpError(404, "File not found"))
    else
      var guard := PartyGuard(projects.FindById(f.value.projectId), userId);
      if guard.Fail? then Err(guard.error)
      else if !onDisk(f.value.filePath) then Err(HttpError(404, "File missing on disk"))
      else Ok(f.value)
  }
}
