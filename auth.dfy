/**
 * The session context (contexts/AuthContext.tsx): who is logged in, the
 * live-exam list and the exam bank every page shares, and the last
 * notification. The go-live dialog and the control panel change the live
 * list through this context, so their handlers are methods here.
 */
module Auth {
  import opened Types
  import GoLive
  import LiveControl

  /** The role picked on the login page. */
  datatype LoginRole = AsStudent | AsAdmin

  datatype LoginDecision = StudentLogin | AdminLogin | LoginFailed

  /** The registration number the administrator logs in with. */
  const AdminRegNo: string := "ADMIN-001"

  /** The branches of the login callback. */
  function Decide(role: LoginRole, regNo: string, studentRegNo: string): (r: LoginDecision)
    ensures r == StudentLogin <==> role == AsStudent && regNo == studentRegNo
    ensures r == AdminLogin <==> role == AsAdmin && regNo == AdminRegNo
    ensures r == LoginFailed <==> !(role == AsStudent && regNo == studentRegNo) && !(role == AsAdmin && regNo == AdminRegNo)
  {
    if role == AsStudent && regNo == studentRegNo then StudentLogin
    else if role == AsAdmin && regNo == AdminRegNo then AdminLogin
    else LoginFailed
  }

  /** The admin's registration number never logs a student in, nor the student's an admin. */
  lemma RoleMustMatch(regNo: string, studentRegNo: string)
    ensures Decide(AsAdmin, regNo, studentRegNo) != StudentLogin
    ensures Decide(AsStudent, regNo, studentRegNo) != AdminLogin
  {
  }

  class Session {
    /** `DUMMY_DATA.allExamBank`, `DUMMY_DATA.studentProfile`, `DUMMY_DATA.adminProfile`. */
    const examBank: seq<Exam>
    const studentProfile: Student
    const adminProfile: Admin

    var user: Option<User>
    var loading: bool
    var liveExams: seq<Exam>
    var allExams: seq<Exam>
    var notification: Option<Notice>

    /** Only the two fixture profiles are ever logged in. */
    ghost predicate Valid()
      reads this
    {
      user.Some? ==> user.value == StudentUser(studentProfile) || user.value == AdminUser(adminProfile)
    }

    /** `AuthProvider`'s initial state. */
    constructor (bank: seq<Exam>, student: Student, admin: Admin)
      ensures Valid()
      ensures examBank == bank && studentProfile == student && adminProfile == admin
      ensures user == None && !loading && liveExams == [] && allExams == bank && notification == None
    {
      examBank := bank;
      studentProfile := student;
      adminProfile := admin;
      user := None;
      loading := false;
      liveExams := [];
      allExams := bank;
      notification := None;
    }

    /** The synchronous half of `login`: the spinner starts. */
    method StartLogin()
      requires Valid()
      modifies this
      ensures Valid()
      ensures loading
      ensures user == old(user) && liveExams == old(liveExams) && allExams == old(allExams)
      ensures notification == old(notification)
    {
      loading := true;
    }

    /**
     * The delayed half of `login`: a matching student or administrator is
     * logged in and sent to their dashboard; an administrator's login also
     * reloads the bank and clears the live list; anything else leaves the
     * user as it was and raises "Login Failed". The spinner stops in every case.
     */
    method FinishLogin(role: LoginRole, regNo: string) returns (route: Option<string>)
      requires Valid()
      modifies this
      ensures Valid()
      ensures !loading
      ensures var d := Decide(role, regNo, studentProfile.regNo);
        match d
        case StudentLogin =>
          user == Some(StudentUser(studentProfile)) && route == Some("/student/dashboard") &&
          liveExams == old(liveExams) && allExams == old(allExams) && notification == old(notification)
        case AdminLogin =>
          user == Some(AdminUser(adminProfile)) && route == Some("/admin/dashboard") &&
          liveExams == [] && allExams == examBank && notification == old(notification)
        case LoginFailed =>
          user == old(user) && route == None &&
          liveExams == old(liveExams) && allExams == old(allExams) &&
          notification == Some(Notice("Login Failed", Error))
    {
      route := None;
      if role == AsStudent && regNo == studentProfile.regNo {
        user := Some(StudentUser(studentProfile));
        route := Some("/student/dashboard");
      } else if role == AsAdmin && regNo == AdminRegNo {
        user := Some(AdminUser(adminProfile));
        allExams := examBank;
        liveExams := [];
        route := Some("/admin/dashboard");
      } else {
        notification := Some(Notice("Login Failed", Error));
      }
      loading := false;
    }

    /** `logout`: no user and no live exams; back to the login page. */
    method Logout() returns (route: string)
      requires Valid()
      modifies this
      ensures Valid()
      ensures user == None && liveExams == [] && route == "/login"
      ensures loading == old(loading) && allExams == old(allExams) && notification == old(notification)
    {
      user := None;
      liveExams := [];
      route := "/login";
    }

    /** The go-live dialog's confirm button. */
    method ConfirmGoLive(exam: Exam, selected: seq<string>)
      requires Valid()
      modifies this
      ensures Valid()
      ensures liveExams == GoLive.ConfirmGoLive(old(liveExams), exam, selected).liveExams
      ensures notification == Some(GoLive.ConfirmGoLive(old(liveExams), exam, selected).notice)
      ensures user == old(user) && loading == old(loading) && allExams == old(allExams)
    {
      var result := GoLive.ConfirmGoLive(liveExams, exam, selected);
      liveExams := result.liveExams;
      notification := Some(result.notice);
    }

    /** The control panel's stop button. */
    method StopLive(exam: Exam)
      requires Valid()
      modifies this
      ensures Valid()
      ensures liveExams == LiveControl.StopLive(old(liveExams), exam.id)
      ensures notification == Some(Notice("Exam Stopped", Error))
      ensures user == old(user) && loading == old(loading) && allExams == old(allExams)
    {
      notification := Some(Notice("Exam Stopped", Error));
      liveExams := LiveControl.StopLive(liveExams, exam.id);
    }
  }

  /** After an administrator logs in, no exam is live and every published bank exam awaits. */
  method AdminLoginClearsLive(s: Session)
    requires s.Valid()
    modifies s
    ensures s.Valid() && s.user == Some(AdminUser(s.adminProfile))
    ensures s.liveExams == [] && s.allExams == s.examBank
    ensures forall e :: e in s.examBank && e.status == Published ==>
      e in LiveControl.Awaiting(s.examBank, s.liveExams)
  {
    var route := s.FinishLogin(AsAdmin, AdminRegNo);
  }
}
