/** The group chat panel: the send guard, the attachment fields sent with a message,
    and the append of a received group message. */
module GroupChatWindow {
  import opened Optional
  import Strings

  /** The picked file: its name and MIME type. */
  datatype FileInfo = FileInfo(name: string, mime: string)

  /** The `send_group_message` socket payload. */
  datatype Outgoing = Outgoing(senderId: string, groupId: string, text: string,
                               fileUrl: string, fileType: string, fileName: string)

  /** A message as the panel lists it. */
  datatype GroupMessage = GroupMessage(senderId: string, text: string, fileUrl: string,
                                       fileType: string, fileName: string, createdAt: string)

  /** The MIME text up to its first '/': the longest prefix of `mime` without a '/'. */
  predicate MajorType(mime: string, t: string) {
    Strings.StartsWith(mime, t) && '/' !in t && (|t| == |mime| || mime[|t|] == '/')
  }

  /** The stored file type: "pdf" whenever the MIME type mentions pdf, otherwise the MIME
      text before the first '/'. */
  function FileKind(mime: string): (t: string)
    ensures Strings.Contains(mime, "pdf") ==> t == "pdf"
    ensures !Strings.Contains(mime, "pdf") ==> MajorType(mime, t)
  {
    Strings.SplitHead(mime, '/');
    if Strings.Contains(mime, "pdf") then "pdf" else Strings.Split(mime, '/')[0]
  }

  /** Only one prefix is the text before the first '/', so the file type of a MIME type
      without "pdf" is determined. */
  lemma MajorTypeUnique(mime: string, t: string, u: string)
    requires MajorType(mime, t) && MajorType(mime, u)
    ensures t == u
  {
    if |t| == |u| {
      assert t == mime[..|t|] == u;
    }
  }

  /** The attachment fields of `handleSend`: empty and "none" without a file; with one,
      its kind and its name. No upload happens, so the URL stays empty. */
  method AttachmentFields(file: Option<FileInfo>) returns (fileUrl: string, fileType: string, fileName: string)
    ensures fileUrl == ""
    ensures file.None? ==> fileType == "none" && fileName == ""
    ensures file.Some? ==> fileName == file.value.name && fileType == FileKind(file.value.mime)
  {
    fileUrl := "";
    fileType := "none";
    fileName := "";
    if file.Some? {
      fileType := Strings.Split(file.value.mime, '/')[0];
      if Strings.Contains(file.value.mime, "pdf") {
        fileType := "pdf";
      }
      fileName := file.value.name;
    }
  }

  /** The panel for the signed-in user `userId` in group `groupId`. */
  class GroupChatState {
    const userId: string
    const groupId: string
    var messages: seq<GroupMessage>
    var text: string
    var file: Option<FileInfo>

    constructor (userId: string, groupId: string)
      ensures this.userId == userId && this.groupId == groupId
      ensures messages == [] && text == "" && file == None
    {
      this.userId := userId;
      this.groupId := groupId;
      messages := [];
      text := "";
      file := None;
    }

    /** The fetched history replaces the list. */
    method LoadHistory(data: seq<GroupMessage>)
      modifies this
      ensures messages == data && text == old(text) && file == old(file)
    {
      messages := data;
    }

    /** `receive_group_message`: append at the end. */
    method ReceiveGroupMessage(incoming: GroupMessage)
      modifies this
      ensures messages == old(messages) + [incoming]
      ensures text == old(text) && file == old(file)
    {
      messages := messages + [incoming];
    }

    /** Typing and picking a file. */
    method SetInput(newText: string, newFile: Option<FileInfo>)
      modifies this
      ensures text == newText && file == newFile && messages == old(messages)
    {
      text := newText;
      file := newFile;
    }

    /** `handleSend`: nothing when the text is blank and no file is picked; otherwise
        emit the text with the attachment fields and clear the input and the file.
        The list itself only grows when the server echoes the message back. */
    method HandleSend() returns (emitted: Option<Outgoing>)
      modifies this
      ensures messages == old(messages)
      ensures Strings.IsBlank(old(text)) && old(file).None? ==>
        emitted == None && text == old(text) && file == old(file)
      ensures !(Strings.IsBlank(old(text)) && old(file).None?) ==>
        && emitted.Some?
        && emitted.value.senderId == userId && emitted.value.groupId == groupId
        && emitted.value.text == old(text) && emitted.value.fileUrl == ""
        && (old(file).None? ==> emitted.value.fileType == "none" && emitted.value.fileName == "")
        && (old(file).Some? ==> emitted.value.fileName == old(file).value.name
                                && emitted.value.fileType == FileKind(old(file).value.mime))
        && text == "" && file == None
    {
      if Strings.IsBlank(text) && file.None? {
        return None;
      }
      var fileUrl, fileType, fileName := AttachmentFields(file);
      emitted := Some(Outgoing(userId, groupId, text, fileUrl, fileType, fileName));
      text := "";
      file := None;
    }
  }
}
