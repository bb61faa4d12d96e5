/** The application's shared record and enumeration types (types.ts).
    Dates are milliseconds since the epoch; money amounts are `real`. */
module Records {
  import opened Wrappers

  datatype Role = USER | ADMIN | SUPER_ADMIN

  datatype UserStatus = ACTIVE | BANNED | SUSPENDED

  datatype User = User(
    id: string,
    name: string,
    email: string,
    role: Role,
    status: UserStatus,
    credits: int,
    isVerified: bool,
    twoFactorEnabled: bool,
    trialEndsAt: Option<int>,
    referralCode: string,
    hasLifetimeAccess: Option<bool>)

  /** The four declared levels, and a text outside them, which a cast in
      the initial authentication state lets through. */
  datatype SecurityLevel = LOW | MEDIUM | HIGH | FORTRESS | OffList(text: string)

  datatype AuthState = AuthState(
    user: Option<User>,
    isAuthenticated: bool,
    isLoading: bool,
    securityLevel: SecurityLevel)

  /** The kind of a chat attachment. */
  datatype AttachmentKind =
    | ImageKind | FileKind | AudioKind | VideoKind
    | GeneratedImage | GeneratedVideo | GeneratedAudio

  /** `data` is base64 content; `url` a link to the content. */
  datatype Attachment = Attachment(
    kind: AttachmentKind,
    name: Option<string>,
    mimeType: Option<string>,
    data: Option<string>,
    url: Option<string>)

  datatype MessageRole = UserRole | ModelRole

  datatype Message = Message(
    id: string,
    role: MessageRole,
    content: string,
    attachments: seq<Attachment>)

  /** An agent as far as request shaping needs it. */
  datatype Agent = Agent(
    id: string,
    systemInstruction: string,
    webhookUrl: Option<string>)

  datatype CreditPackage = CreditPackage(
    id: string,
    credits: nat,
    price: real,
    bonus: Option<nat>)

  /** Knowledge-base documents keep their status as the text the screen
      switches on ('published', 'draft', 'archived'). */
  datatype KnowledgeDoc = KnowledgeDoc(
    id: string,
    title: string,
    category: string,
    status: string)

  datatype LogLevel = INFO | WARN | ERROR | CRITICAL

  datatype LogSource = SYSTEM | AGENT | API | USER_SOURCE | WORKFLOW

  /** A log line; its generated id and timestamp are not modelled. */
  datatype LogEntry = LogEntry(
    level: LogLevel,
    source: LogSource,
    message: string,
    details: Option<string>)

  datatype ServiceType = N8n | Make | Twilio | ElevenLabs | Custom

  /** A configured workflow; its status is the text the console switches on. */
  datatype WorkflowConfig = WorkflowConfig(
    id: string,
    name: string,
    description: string,
    status: string,
    webhookUrl: string,
    serviceType: Option<ServiceType>)
}
